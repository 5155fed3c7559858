/** The race of zcncore/transaction_base.go's submitTxn: one goroutine per miner, an atomic counter of
    failures, a channel that is closed when all have failed, and a buffered result channel; the caller
    waits for whichever of the two becomes ready. A run is any interleaving of atomic steps. */
module SubmitRace {
  import opened Support
  import opened Cardinality

  /** What a miner does: no usable answer, or an HTTP status with a body. */
  datatype Outcome = NoAnswer | Answer(statusCode: int, body: string)

  /** The miner answers with status 200. */
  ghost predicate Answers200(o: Outcome) {
    match o
    case NoAnswer => false
    case Answer(statusCode, _) => statusCode == 200
  }

  predicate Accepts(o: Outcome) {
    o.Answer? && o.statusCode == STATUS_OK
  }

  /** A worker has not finished its request, or has just bumped the failure counter to n, or is done. */
  datatype Worker = Requesting | Counted(n: nat) | Done

  datatype Verdict = Waiting | AllFailed | Got(worker: nat)

  datatype State = State(
    workers: seq<Worker>,
    failedCount: nat,
    failClosed: bool,
    resultC: seq<nat>,      // workers whose response is in the channel
    verdict: Verdict,
    panicked: bool)         // failC was closed twice

  function Init(n: nat): State {
    State(seq(n, _ => Requesting), 0, false, [], Waiting, false)
  }

  /** AddInt32(&failedCount, 1) by a worker without a 200. */
  ghost predicate CountFailure(o: seq<Outcome>, s: State, s': State, i: nat) {
    && i < |s.workers| == |o| && s.workers[i] == Requesting && !Accepts(o[i])
    && s' == s.(failedCount := s.failedCount + 1, workers := s.workers[i := Counted(s.failedCount + 1)])
  }

  /** The worker that counted the last failure closes failC, or sends its non-200 response. */
  ghost predicate ReportFailure(o: seq<Outcome>, s: State, s': State, i: nat) {
    && i < |s.workers| == |o| && s.workers[i].Counted?
    && if s.workers[i].n != |o| then
         s' == s.(workers := s.workers[i := Done])
       else if o[i].NoAnswer? then
         s' == s.(workers := s.workers[i := Done], failClosed := true, panicked := s.panicked || s.failClosed)
       else
         && |s.resultC| < |o|
         && s' == s.(workers := s.workers[i := Done], resultC := s.resultC + [i])
  }

  /** A worker with a 200 sends its response; the channel has room for one per miner. */
  ghost predicate SendResult(o: seq<Outcome>, s: State, s': State, i: nat) {
    && i < |s.workers| == |o| && s.workers[i] == Requesting && Accepts(o[i])
    && |s.resultC| < |o|
    && s' == s.(workers := s.workers[i := Done], resultC := s.resultC + [i])
  }

  ghost predicate WorkerStep(o: seq<Outcome>, s: State, s': State, i: nat) {
    CountFailure(o, s, s', i) || ReportFailure(o, s, s', i) || SendResult(o, s, s', i)
  }

  predicate SelectEnabled(s: State) {
    s.failClosed || s.resultC != []
  }

  /** Either ready channel may be picked. */
  ghost predicate Select(s: State, s': State) {
    && s.verdict == Waiting
    && (|| (s.failClosed && s' == s.(verdict := AllFailed))
        || (s.resultC != [] && s' == s.(verdict := Got(s.resultC[0]), resultC := s.resultC[1..])))
  }

  ghost predicate Next(o: seq<Outcome>, s: State, s': State) {
    Select(s, s') || exists i: nat :: WorkerStep(o, s, s', i)
  }

  ghost predicate Run(o: seq<Outcome>, run: seq<State>) {
    && run != [] && run[0] == Init(|o|)
    && forall k :: 0 < k < |run| ==> Next(o, run[k - 1], run[k])
  }

  // ----- the invariant -----

  ghost function Failed(o: seq<Outcome>, s: State): set<nat> {
    set i: nat | i < |o| && i < |s.workers| && !Accepts(o[i]) && s.workers[i] != Requesting
  }

  /** Worker i has told the caller: its response is in the channel or was taken out of it. */
  ghost predicate Told(s: State, i: nat) {
    i in s.resultC || s.verdict == Got(i)
  }

  /** The last failure has been reported. */
  ghost predicate FailureReported(o: seq<Outcome>, s: State) {
    s.failClosed || exists i: nat :: i < |o| && Told(s, i) && !Accepts(o[i])
  }

  /** The counter is the number of failed workers; only one of them ever sees the full count. */
  ghost predicate CountInv(o: seq<Outcome>, s: State) {
    && |s.workers| == |o|
    && s.failedCount == |Failed(o, s)|
    && (forall i :: 0 <= i < |o| && s.workers[i].Counted? ==> 1 <= s.workers[i].n <= s.failedCount && !Accepts(o[i]))
    && (forall i, j :: 0 <= i < j < |o| ==> !(s.workers[i] == s.workers[j] == Counted(|o|)))
  }

  /** The full failure count is reported once, by the worker that saw it. */
  ghost predicate ReportInv(o: seq<Outcome>, s: State)
    requires |s.workers| == |o|
  {
    && !s.panicked
    && (FailureReported(o, s) ==> s.failedCount == |o| && forall i :: 0 <= i < |o| ==> s.workers[i] != Counted(|o|))
    && (s.failedCount == |o| > 0 ==> FailureReported(o, s) || exists i :: 0 <= i < |o| && s.workers[i] == Counted(|o|))
    && (s.verdict.AllFailed? ==> s.failClosed)
  }

  /** Responses come from finished workers, at most one each. */
  ghost predicate ChannelInv(o: seq<Outcome>, s: State)
    requires |s.workers| == |o|
  {
    && (forall i: nat :: Told(s, i) ==> i < |o| && s.workers[i] == Done && o[i].Answer?)
    && Distinct(s.resultC)
    && (s.verdict.Got? ==> s.verdict.worker !in s.resultC)
    && (forall i :: 0 <= i < |o| && s.workers[i] == Done && Accepts(o[i]) ==> Told(s, i))
  }

  ghost predicate Inv(o: seq<Outcome>, s: State) {
    CountInv(o, s) && ReportInv(o, s) && ChannelInv(o, s)
  }

  lemma FailedAtMost(o: seq<Outcome>, s: State)
    requires |s.workers| == |o|
    ensures |Failed(o, s)| <= |o|
    ensures |Failed(o, s)| == |o| <==> forall i :: 0 <= i < |o| ==> !Accepts(o[i]) && s.workers[i] != Requesting
  {
    assert Failed(o, s) <= Below(|o|);
    SubsetCard(Failed(o, s), Below(|o|));
    if |Failed(o, s)| == |o| {
      forall i | 0 <= i < |o| ensures !Accepts(o[i]) && s.workers[i] != Requesting {
        assert i in Below(|o|);
      }
    }
    if forall i :: 0 <= i < |o| ==> !Accepts(o[i]) && s.workers[i] != Requesting {
      assert Failed(o, s) == Below(|o|);
    }
  }

  lemma CountFailureGrows(o: seq<Outcome>, s: State, s': State, i: nat)
    requires |s.workers| == |o| && CountFailure(o, s, s', i)
    ensures |Failed(o, s')| == |Failed(o, s)| + 1 && |Failed(o, s)| < |o|
  {
    assert i !in Failed(o, s);
    assert Failed(o, s') == Failed(o, s) + {i};
    FailedAtMost(o, s');
  }

  lemma CountFailureCounts(o: seq<Outcome>, s: State, s': State, i: nat)
    requires CountInv(o, s) && CountFailure(o, s, s', i)
    ensures CountInv(o, s') && s.failedCount < |o|
  {
    CountFailureGrows(o, s, s', i);
    var n := s'.failedCount;
    assert forall j :: 0 <= j < |o| ==> s'.workers[j] == if j == i then Counted(n) else s.workers[j];
  }

  lemma CountFailureKeeps(o: seq<Outcome>, s: State, s': State, i: nat)
    requires Inv(o, s) && CountFailure(o, s, s', i)
    ensures Inv(o, s')
  {
    CountFailureCounts(o, s, s', i);
    assert forall k: nat :: Told(s', k) <==> Told(s, k);
    assert s'.workers[i] == Counted(s'.failedCount);
  }

  lemma ReportFailureKeeps(o: seq<Outcome>, s: State, s': State, i: nat)
    requires Inv(o, s) && ReportFailure(o, s, s', i)
    ensures Inv(o, s')
  {
    assert Failed(o, s') == Failed(o, s);
    if s.workers[i].n == |o| {
      LastReportKeeps(o, s, s', i);
    } else {
      assert forall k: nat :: Told(s', k) <==> Told(s, k);
      if s.failedCount == |o| && !FailureReported(o, s) {
        var w :| 0 <= w < |o| && s.workers[w] == Counted(|o|);
        assert s'.workers[w] == Counted(|o|);
      }
    }
  }

  lemma LastReportKeeps(o: seq<Outcome>, s: State, s': State, i: nat)
    requires Inv(o, s) && ReportFailure(o, s, s', i) && s.workers[i].n == |o|
    ensures ReportInv(o, s') && ChannelInv(o, s')
  {
    FailedAtMost(o, s);
    if o[i].Answer? {
      assert forall k: nat :: Told(s', k) <==> Told(s, k) || k == i;
      assert Told(s', i);
    } else {
      assert forall k: nat :: Told(s', k) <==> Told(s, k);
    }
  }

  lemma SendResultKeeps(o: seq<Outcome>, s: State, s': State, i: nat)
    requires Inv(o, s) && SendResult(o, s, s', i)
    ensures Inv(o, s')
  {
    assert Failed(o, s') == Failed(o, s);
    FailedAtMost(o, s);
    assert forall k: nat :: Told(s', k) <==> Told(s, k) || k == i;
    assert s.failedCount < |o|;
  }

  lemma SelectKeeps(o: seq<Outcome>, s: State, s': State)
    requires Inv(o, s) && Select(s, s')
    ensures Inv(o, s')
  {
    assert Failed(o, s') == Failed(o, s);
    if s'.verdict.Got? {
      assert s.resultC == [s.resultC[0]] + s'.resultC;
    }
    assert forall k: nat :: Told(s', k) <==> Told(s, k);
  }

  lemma {:induction false} RunKeepsInv(o: seq<Outcome>, run: seq<State>, k: nat)
    requires Run(o, run)
    requires k < |run|
    ensures Inv(o, run[k])
  {
    if k == 0 {
      assert Failed(o, run[0]) == {};
    } else {
      RunKeepsInv(o, run, k - 1);
      var s, s' := run[k - 1], run[k];
      if Select(s, s') {
        SelectKeeps(o, s, s');
      } else {
        var i: nat :| WorkerStep(o, s, s', i);
        if CountFailure(o, s, s', i) {
          CountFailureKeeps(o, s, s', i);
        } else if ReportFailure(o, s, s', i) {
          ReportFailureKeeps(o, s, s', i);
        } else {
          SendResultKeeps(o, s, s', i);
        }
      }
    }
  }

  // ----- what every run guarantees -----

  /** The transaction is reported as submitted. */
  ghost predicate Success(o: seq<Outcome>, s: State) {
    s.verdict.Got? && s.verdict.worker < |o| && Answers200(o[s.verdict.worker])
  }

  /** Schedule independence: whenever the caller gets a verdict, it is success exactly when some miner
      answers 200; failC is closed at most once, and a closed failC or a response other than 200 in the
      result channel means that every miner has failed. */
  lemma VerdictIsScheduleIndependent(o: seq<Outcome>, run: seq<State>, k: nat)
    requires Run(o, run) && k < |run|
    ensures !run[k].panicked
    ensures run[k].verdict != Waiting ==> (Success(o, run[k]) <==> exists i :: 0 <= i < |o| && Answers200(o[i]))
    ensures run[k].failClosed ==> forall i :: 0 <= i < |o| ==> !Answers200(o[i])
    ensures forall i :: i in run[k].resultC ==> i < |o|
    ensures (exists i :: i in run[k].resultC && !Answers200(o[i])) ==>
              forall i :: 0 <= i < |o| ==> !Answers200(o[i])
  {
    RunKeepsInv(o, run, k);
    var s := run[k];
    FailedAtMost(o, s);
    assert forall i :: i in s.resultC ==> Told(s, i);
    assert forall i :: 0 <= i < |o| ==> (Answers200(o[i]) <==> Accepts(o[i]));
    if s.verdict.Got? {
      assert Told(s, s.verdict.worker);
    }
  }

  /** failC is closed only by a worker that finds it open. */
  lemma ClosedAtMostOnce(o: seq<Outcome>, run: seq<State>, k: nat, s': State, i: nat)
    requires Run(o, run) && k < |run| && ReportFailure(o, run[k], s', i)
    requires run[k].workers[i].n == |o| && o[i].NoAnswer?
    ensures !run[k].failClosed && s'.failClosed
  {
    RunKeepsInv(o, run, k);
  }

  /** No send blocks: as long as some worker is not done, it can take its next step. */
  lemma WorkersNeverBlock(o: seq<Outcome>, run: seq<State>, k: nat, i: nat) returns (s': State)
    requires Run(o, run) && k < |run|
    requires i < |o| && |run[k].workers| == |o| && run[k].workers[i] != Done
    ensures WorkerStep(o, run[k], s', i)
  {
    RunKeepsInv(o, run, k);
    var s := run[k];
    RoomInChannel(o, s, i);
    if s.workers[i].Counted? {
      if s.workers[i].n != |o| {
        s' := s.(workers := s.workers[i := Done]);
      } else if o[i].NoAnswer? {
        s' := s.(workers := s.workers[i := Done], failClosed := true, panicked := s.panicked || s.failClosed);
      } else {
        s' := s.(workers := s.workers[i := Done], resultC := s.resultC + [i]);
      }
      assert ReportFailure(o, s, s', i);
    } else if Accepts(o[i]) {
      s' := s.(workers := s.workers[i := Done], resultC := s.resultC + [i]);
      assert SendResult(o, s, s', i);
    } else {
      s' := s.(failedCount := s.failedCount + 1, workers := s.workers[i := Counted(s.failedCount + 1)]);
      assert CountFailure(o, s, s', i);
    }
  }

  lemma RoomInChannel(o: seq<Outcome>, s: State, i: nat)
    requires Inv(o, s)
    requires i < |o| && s.workers[i] != Done
    ensures |s.resultC| < |o|
  {
    forall x | x in s.resultC ensures x < |o| && x != i {
      assert Told(s, x);
    }
    FewerThan(s.resultC, |o|, i);
  }

  /** Once all workers have finished, the caller is not left waiting. */
  lemma FinishedMeansReady(o: seq<Outcome>, run: seq<State>, k: nat)
    requires |o| > 0
    requires Run(o, run) && k < |run|
    requires forall i :: 0 <= i < |run[k].workers| ==> run[k].workers[i] == Done
    requires run[k].verdict == Waiting
    ensures SelectEnabled(run[k])
  {
    RunKeepsInv(o, run, k);
    var s := run[k];
    FailedAtMost(o, s);
    if i :| 0 <= i < |o| && Accepts(o[i]) {
      assert Told(s, i);
    }
  }

  /** Steps still to be taken; it falls with every step, so no run is longer than 2n + 1 steps. */
  function Work(s: State): nat {
    WorkOf(s.workers) + if s.verdict == Waiting then 1 else 0
  }

  function WorkOf(workers: seq<Worker>): nat {
    if workers == [] then 0
    else WorkOf(workers[1..]) + (match workers[0] case Requesting => 2 case Counted(_) => 1 case Done => 0)
  }

  lemma {:induction false} WorkUpdate(workers: seq<Worker>, i: nat, w: Worker)
    requires i < |workers|
    requires workers[i] != Done && (w == Done || (workers[i] == Requesting && w.Counted?))
    ensures WorkOf(workers[i := w]) < WorkOf(workers)
  {
    if i == 0 {
      assert workers[i := w][1..] == workers[1..];
    } else {
      assert workers[i := w][1..] == workers[1..][i - 1 := w];
      WorkUpdate(workers[1..], i - 1, w);
    }
  }

  lemma WorkerProgress(o: seq<Outcome>, s: State, s': State, i: nat)
    requires WorkerStep(o, s, s', i)
    ensures i < |s.workers| && s'.verdict == s.verdict && WorkOf(s'.workers) < WorkOf(s.workers)
  {
    if CountFailure(o, s, s', i) {
      WorkUpdate(s.workers, i, Counted(s.failedCount + 1));
    } else {
      WorkUpdate(s.workers, i, Done);
    }
  }

  lemma EveryStepIsProgress(o: seq<Outcome>, s: State, s': State)
    requires Next(o, s, s')
    ensures Work(s') < Work(s)
  {
    if i: nat :| WorkerStep(o, s, s', i) {
      WorkerProgress(o, s, s', i);
    }
  }

  lemma {:induction false} RunsAreShort(o: seq<Outcome>, run: seq<State>)
    requires Run(o, run)
    ensures |run| - 1 + Work(run[|run| - 1]) <= 2 * |o| + 1
    decreases |run|
  {
    var m := |run| - 1;
    if m == 0 {
      FreshWork(|o|);
    } else {
      RunsAreShort(o, run[..m]);
      EveryStepIsProgress(o, run[m - 1], run[m]);
    }
  }

  lemma {:induction false} FreshWork(n: nat)
    ensures WorkOf(seq(n, _ => Requesting)) == 2 * n
  {
    if n > 0 {
      assert seq(n, _ => Requesting)[1..] == seq(n - 1, _ => Requesting);
      FreshWork(n - 1);
    }
  }

  lemma StuckWithoutMiners(s: State)
    ensures !Next([], Init(0), s)
  {
  }

  /** With no miners at all the caller waits for ever: no step is ever possible. */
  lemma NoMinersNoVerdict(run: seq<State>)
    requires Run([], run)
    ensures |run| == 1 && run[0].verdict == Waiting
  {
    if |run| > 1 {
      StuckWithoutMiners(run[1]);
    }
  }

  ghost predicate CanGoOn(o: seq<Outcome>, s: State) {
    exists s' :: Next(o, s, s')
  }

  /** In every run that is still waiting some step is possible. */
  ghost predicate NeverStuck(o: seq<Outcome>) {
    forall run: seq<State> :: Run(o, run) && run[|run| - 1].verdict == Waiting ==> CanGoOn(o, run[|run| - 1])
  }

  /** The exact condition for a verdict: a waiting run can always go on if and only if there is a miner.
      Since no run is longer than RunsAreShort allows, with a miner every run that goes on as long as it
      can comes to a verdict. */
  lemma NeverStuckIff(o: seq<Outcome>)
    ensures NeverStuck(o) <==> |o| > 0
  {
    if |o| > 0 {
      forall run: seq<State> | Run(o, run) && run[|run| - 1].verdict == Waiting ensures CanGoOn(o, run[|run| - 1]) {
        WaitingGoesOn(o, run);
      }
    } else {
      assert o == [] && Run([], [Init(0)]);
      if CanGoOn([], Init(0)) {
        var s' :| Next([], Init(0), s');
        StuckWithoutMiners(s');
      }
      assert [Init(0)][0].verdict == Waiting;
    }
  }

  lemma WaitingGoesOn(o: seq<Outcome>, run: seq<State>)
    requires |o| > 0 && Run(o, run) && run[|run| - 1].verdict == Waiting
    ensures CanGoOn(o, run[|run| - 1])
  {
    var k := |run| - 1;
    var s := run[k];
    RunKeepsInv(o, run, k);
    if i :| 0 <= i < |o| && s.workers[i] != Done {
      var s' := WorkersNeverBlock(o, run, k, i);
      assert Next(o, s, s');
    } else {
      FinishedMeansReady(o, run, k);
      SelectIsPossible(o, s);
    }
  }

  lemma SelectIsPossible(o: seq<Outcome>, s: State)
    requires s.verdict == Waiting && SelectEnabled(s)
    ensures CanGoOn(o, s)
  {
    var s' := if s.failClosed then s.(verdict := AllFailed)
              else s.(verdict := Got(s.resultC[0]), resultC := s.resultC[1..]);
    assert Select(s, s');
    assert Next(o, s, s');
  }
}
