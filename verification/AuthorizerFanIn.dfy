/** The bridge's authorizer fan-in (zcnbridge/authorizers_query.go): one goroutine per authorizer sends a
    response, one handler goroutine collects them and counts down a WaitGroup, and the caller closes the
    channel when the count is zero. A run is any interleaving of these steps. */
module AuthorizerFanIn {
  import opened Support
  import opened Cardinality

  /** The burn ticket an authorizer confirms, with its signature. */
  datatype Ticket = Ticket(txnId: string, amount: int, recipient: string, nonce: int, signature: string)

  /** What the query of an authorizer comes to: no request could be built for its URL, or a response that
      may carry an error. The ticket is decoded from the body in either case; for Ethereum it is the decoded
      value itself, for the 0chain side a pointer in it, nil when the body has no ticket. */
  datatype Outcome = BadUrl | Responded(error: Option<string>, ticket: Option<Ticket>)

  datatype Authorizer = Authorizer(id: string, outcome: Outcome)

  /** A job result tagged with the authorizer that produced it. */
  datatype JobResult = JobResult(authorizerId: string, ticket: Option<Ticket>)

  datatype Worker = Querying | Sent | GaveUp

  datatype Handler = Ranging | Processing(job: nat) | Delivering | HandlerDone

  datatype Caller = InWait | AwaitingEvents | Returned(results: seq<JobResult>)

  datatype State = State(
    workers: seq<Worker>,
    responseC: seq<nat>,
    closed: bool,
    wg: int,
    handler: Handler,
    processed: seq<nat>,     // jobs whose wg.Done has been called, in order
    events: seq<JobResult>,
    caller: Caller,
    panicked: bool)          // a send on the closed channel, or a negative WaitGroup

  function Init(a: seq<Authorizer>): State {
    State(seq(|a|, _ => Querying), [], false, |a|, Ranging, [], [], InWait, false)
  }

  /** queryAuthorizer sends its response; the channel has room for one per authorizer. */
  ghost predicate SendResponse(a: seq<Authorizer>, s: State, s': State, i: nat) {
    && i < |a| == |s.workers| && s.workers[i] == Querying && a[i].outcome.Responded?
    && (if s.closed then s' == s.(panicked := true)
        else |s.responseC| < |a| && s' == s.(workers := s.workers[i := Sent], responseC := s.responseC + [i]))
  }

  /** queryAuthorizer returns without sending when the request cannot be built. */
  ghost predicate GiveUp(a: seq<Authorizer>, s: State, s': State, i: nat) {
    && i < |a| == |s.workers| && s.workers[i] == Querying && a[i].outcome.BadUrl?
    && s' == s.(workers := s.workers[i := GaveUp])
  }

  ghost predicate Receive(s: State, s': State) {
    && s.handler == Ranging && s.responseC != []
    && s' == s.(handler := Processing(s.responseC[0]), responseC := s.responseC[1..])
  }

  ghost predicate Process(a: seq<Authorizer>, s: State, s': State) {
    && s.handler.Processing? && s.handler.job < |a| && a[s.handler.job].outcome.Responded?
    && var job := s.handler.job;
       s' == s.(events := s.events + EventOf(a[job]), wg := s.wg - 1, panicked := s.panicked || s.wg - 1 < 0,
                processed := s.processed + [job], handler := Ranging)
  }

  ghost predicate RangeEnds(s: State, s': State) {
    && s.handler == Ranging && s.responseC == [] && s.closed
    && s' == s.(handler := Delivering)
  }

  ghost predicate CloseResponses(s: State, s': State) {
    s.caller == InWait && s.wg == 0 && s' == s.(closed := true, caller := AwaitingEvents)
  }

  ghost predicate HandOver(s: State, s': State) {
    && s.handler == Delivering && s.caller == AwaitingEvents
    && s' == s.(handler := HandlerDone, caller := Returned(s.events))
  }

  ghost predicate Next(a: seq<Authorizer>, s: State, s': State) {
    || (exists i: nat :: SendResponse(a, s, s', i) || GiveUp(a, s, s', i))
    || Receive(s, s') || Process(a, s, s') || RangeEnds(s, s') || CloseResponses(s, s') || HandOver(s, s')
  }

  ghost predicate Run(a: seq<Authorizer>, run: seq<State>) {
    && run != [] && run[0] == Init(a)
    && forall k :: 0 < k < |run| ==> Next(a, run[k - 1], run[k])
  }

  /** The event of an error-free response, tagged with its own authorizer. */
  function EventOf(a: Authorizer): seq<JobResult> {
    if a.outcome.Responded? && a.outcome.error.None? then [JobResult(a.id, a.outcome.ticket)] else []
  }

  function EventsOf(a: seq<Authorizer>, jobs: seq<nat>): seq<JobResult>
    requires forall j :: j in jobs ==> j < |a|
  {
    if jobs == [] then []
    else
      var m := |jobs| - 1;
      assert jobs[m] in jobs;
      assert forall j :: j in jobs[..m] ==> j in jobs;
      EventsOf(a, jobs[..m]) + EventOf(a[jobs[m]])
  }

  // ----- the invariant -----

  function InHand(s: State): seq<nat> {
    if s.handler.Processing? then [s.handler.job] else []
  }

  /** All responses that were sent: processed, in the handler's hand, or in the channel. */
  function Responses(s: State): seq<nat> {
    s.processed + InHand(s) + s.responseC
  }

  ghost predicate Inv(a: seq<Authorizer>, s: State) {
    && |s.workers| == |a|
    && !s.panicked
    && Distinct(Responses(s))
    && (forall i: nat :: i in Responses(s) <==> i < |a| && s.workers[i] == Sent)
    && (forall i :: 0 <= i < |a| ==>
          (s.workers[i] == Sent ==> a[i].outcome.Responded?) && (s.workers[i] == GaveUp ==> a[i].outcome.BadUrl?))
    && s.wg == |a| - |s.processed|
    && (forall j :: j in s.processed ==> j < |a|)
    && s.events == EventsOf(a, s.processed)
    && (s.closed <==> s.caller != InWait)
    && (s.closed ==> s.wg == 0)
    && (s.handler == Delivering || s.handler == HandlerDone ==> s.closed)
    && (s.handler == HandlerDone <==> s.caller.Returned?)
    && (s.caller.Returned? ==> s.caller.results == s.events)
  }

  /** A WaitGroup at zero means that every authorizer's response has been processed. */
  lemma ZeroMeansAll(a: seq<Authorizer>, s: State)
    requires Inv(a, s) && s.wg == 0
    ensures forall i :: 0 <= i < |a| ==> s.workers[i] == Sent
    ensures s.responseC == [] && !s.handler.Processing?
  {
    var all := Responses(s);
    assert forall k :: 0 <= k < |s.processed| ==> all[k] == s.processed[k];
    AllBelow(s.processed, |a|);
    forall i: nat | i < |a| ensures s.workers[i] == Sent {
      assert i in s.processed;
      assert i in all;
    }
    assert forall x :: x in all ==> x < |a|;
    DistinctCard(all);
    SubsetCard(Elements(all), Below(|a|));
  }

  lemma ResponsesBounded(a: seq<Authorizer>, s: State, i: nat)
    requires Inv(a, s) && i < |a| && s.workers[i] != Sent
    ensures |Responses(s)| < |a|
  {
    FewerThan(Responses(s), |a|, i);
  }

  lemma SendKeeps(a: seq<Authorizer>, s: State, s': State, i: nat)
    requires Inv(a, s) && SendResponse(a, s, s', i)
    ensures Inv(a, s')
  {
    if s.closed {
      ZeroMeansAll(a, s);
    }
    assert Responses(s.(workers := s.workers[i := Sent], responseC := s.responseC + [i])) == Responses(s) + [i];
    assert i !in Responses(s);
  }

  lemma GiveUpKeeps(a: seq<Authorizer>, s: State, s': State, i: nat)
    requires Inv(a, s) && GiveUp(a, s, s', i)
    ensures Inv(a, s')
  {
  }

  lemma ReceiveKeeps(a: seq<Authorizer>, s: State, s': State)
    requires Inv(a, s) && Receive(s, s')
    ensures Inv(a, s')
  {
    assert Responses(s') == Responses(s);
  }

  lemma ProcessKeeps(a: seq<Authorizer>, s: State, s': State)
    requires Inv(a, s) && Process(a, s, s')
    ensures Inv(a, s')
  {
    assert Responses(s') == Responses(s);
    assert s'.processed[..|s.processed|] == s.processed;
    if s.wg == 0 {
      ZeroMeansAll(a, s);
    }
    ProcessedFit(a, s');
  }

  lemma ProcessedFit(a: seq<Authorizer>, s: State)
    requires Distinct(Responses(s))
    requires forall i :: i in Responses(s) ==> i < |a|
    ensures |s.processed| <= |a|
    ensures forall j :: j in s.processed ==> j < |a|
  {
    var all := Responses(s);
    assert forall k :: 0 <= k < |s.processed| ==> all[k] == s.processed[k] && all[k] in all;
    DistinctCard(s.processed);
    SubsetCard(Elements(s.processed), Below(|a|));
  }

  lemma NextKeeps(a: seq<Authorizer>, s: State, s': State)
    requires Inv(a, s) && Next(a, s, s')
    ensures Inv(a, s')
  {
    if i: nat :| SendResponse(a, s, s', i) || GiveUp(a, s, s', i) {
      if SendResponse(a, s, s', i) {
        SendKeeps(a, s, s', i);
      } else {
        GiveUpKeeps(a, s, s', i);
      }
    } else if Receive(s, s') {
      ReceiveKeeps(a, s, s');
    } else if Process(a, s, s') {
      ProcessKeeps(a, s, s');
    } else {
      assert Responses(s') == Responses(s);
    }
  }

  lemma {:induction false} RunKeepsInv(a: seq<Authorizer>, run: seq<State>, k: nat)
    requires Run(a, run) && k < |run|
    ensures Inv(a, run[k])
  {
    if k > 0 {
      RunKeepsInv(a, run, k - 1);
      NextKeeps(a, run[k - 1], run[k]);
    }
  }

  // ----- what every run guarantees -----

  /** No interleaving sends on the closed channel or drives the WaitGroup negative. */
  lemma NeverPanics(a: seq<Authorizer>, run: seq<State>, k: nat)
    requires Run(a, run) && k < |run|
    ensures !run[k].panicked && run[k].wg >= 0
  {
    RunKeepsInv(a, run, k);
    var s := run[k];
    ProcessedFit(a, s);
  }

  /** Every send finds the channel open, and every Done a positive WaitGroup. */
  lemma StepsAreSafe(a: seq<Authorizer>, run: seq<State>, k: nat, s': State)
    requires Run(a, run) && k < |run|
    ensures (exists i: nat :: SendResponse(a, run[k], s', i)) ==> !run[k].closed && |run[k].responseC| < |a|
    ensures Process(a, run[k], s') ==> run[k].wg > 0
    ensures CloseResponses(run[k], s') ==> !run[k].closed
  {
    RunKeepsInv(a, run, k);
    var s := run[k];
    if i: nat :| SendResponse(a, s, s', i) {
      if s.closed {
        ZeroMeansAll(a, s);
      }
      ResponsesBounded(a, s, i);
    }
    if Process(a, s, s') && s.wg == 0 {
      ZeroMeansAll(a, s);
    }
    ProcessedFit(a, s);
  }

  /** The results are exactly the error-free responses: `jobs` runs through all authorizers once, in the
      order their responses were handled, and every error-free one contributes its own ticket under its
      own id. */
  lemma ResultsAreErrorFreeResponses(a: seq<Authorizer>, run: seq<State>, k: nat) returns (jobs: seq<nat>)
    requires Run(a, run) && k < |run| && run[k].caller.Returned?
    ensures forall i :: 0 <= i < |a| ==> a[i].outcome.Responded?
    ensures Distinct(jobs) && forall i: nat :: i in jobs <==> i < |a|
    ensures run[k].caller.results == EventsOf(a, jobs)
    ensures |run[k].caller.results| == |ErrorFree(a)|
  {
    RunKeepsInv(a, run, k);
    var s := run[k];
    ZeroMeansAll(a, s);
    assert Responses(s) == s.processed;
    AllBelow(s.processed, |a|);
    jobs := s.processed;
    CountErrorFree(a, jobs);
    assert Answering(a, jobs) == ErrorFree(a);
  }

  predicate AnswersWell(a: Authorizer) {
    a.outcome.Responded? && a.outcome.error.None?
  }

  /** The authorizers that answer without error. */
  function ErrorFree(a: seq<Authorizer>): set<nat> {
    set i | i in Below(|a|) && AnswersWell(a[i])
  }

  function Answering(a: seq<Authorizer>, jobs: seq<nat>): set<nat> {
    set j | j in jobs && j < |a| && AnswersWell(a[j])
  }

  lemma {:induction false} CountErrorFree(a: seq<Authorizer>, jobs: seq<nat>)
    requires Distinct(jobs)
    requires forall j :: j in jobs ==> j < |a|
    ensures |EventsOf(a, jobs)| == |Answering(a, jobs)|
  {
    if jobs != [] {
      var m := |jobs| - 1;
      var rest, last := jobs[..m], jobs[m];
      assert last in jobs && last !in rest;
      assert forall j :: j in rest ==> j in jobs;
      CountErrorFree(a, rest);
      AnsweringStep(a, rest, last);
      assert jobs == rest + [last];
      assert EventsOf(a, jobs) == EventsOf(a, rest) + EventOf(a[last]);
    }
  }

  lemma AnsweringStep(a: seq<Authorizer>, rest: seq<nat>, last: nat)
    requires last !in rest && last < |a|
    ensures |Answering(a, rest + [last])| == |Answering(a, rest)| + |EventOf(a[last])|
  {
    if AnswersWell(a[last]) {
      assert Answering(a, rest + [last]) == Answering(a, rest) + {last};
    } else {
      assert Answering(a, rest + [last]) == Answering(a, rest);
    }
  }

  /** Steps still to be taken by anybody; it falls with every step. */
  function Pending(workers: seq<Worker>): nat {
    if workers == [] then 0 else Pending(workers[1..]) + (if workers[0] == Querying then 1 else 0)
  }

  function Work(s: State): nat {
    3 * Pending(s.workers) + 2 * |s.responseC| + |InHand(s)|
    + (match s.handler case Ranging => 2 case Processing(_) => 2 case Delivering => 1 case HandlerDone => 0)
    + (if s.caller == InWait then 1 else 0)
  }

  lemma {:induction false} PendingUpdate(workers: seq<Worker>, i: nat, w: Worker)
    requires i < |workers| && workers[i] == Querying && w != Querying
    ensures Pending(workers[i := w]) == Pending(workers) - 1
  {
    if i == 0 {
      assert workers[i := w][1..] == workers[1..];
    } else {
      assert workers[i := w][1..] == workers[1..][i - 1 := w];
      PendingUpdate(workers[1..], i - 1, w);
    }
  }

  lemma EveryStepIsProgress(a: seq<Authorizer>, s: State, s': State)
    requires |s.workers| == |a| && !s'.panicked && Next(a, s, s')
    ensures Work(s') < Work(s)
  {
    if i: nat :| SendResponse(a, s, s', i) || GiveUp(a, s, s', i) {
      PendingUpdate(s.workers, i, s'.workers[i]);
    }
  }

  /** As long as the caller has not returned and every URL is good, somebody can take a step; since every
      step is progress, the query always returns. */
  lemma NeverStuckWithGoodUrls(a: seq<Authorizer>, run: seq<State>, k: nat) returns (s': State)
    requires Run(a, run) && k < |run|
    requires forall i :: 0 <= i < |a| ==> a[i].outcome.Responded?
    requires !run[k].caller.Returned?
    ensures Next(a, run[k], s')
  {
    RunKeepsInv(a, run, k);
    var s := run[k];
    if i: nat :| i < |a| && s.workers[i] == Querying {
      ResponsesBounded(a, s, i);
      if s.closed {
        ZeroMeansAll(a, s);
      }
      s' := s.(workers := s.workers[i := Sent], responseC := s.responseC + [i]);
      assert SendResponse(a, s, s', i);
    } else if s.handler.Processing? {
      var job := s.handler.job;
      assert job in Responses(s);
      s' := s.(events := s.events + EventOf(a[job]), wg := s.wg - 1, panicked := s.panicked || s.wg - 1 < 0,
               processed := s.processed + [job], handler := Ranging);
      assert Process(a, s, s');
    } else if s.responseC != [] && s.handler == Ranging {
      s' := s.(handler := Processing(s.responseC[0]), responseC := s.responseC[1..]);
    } else if s.caller == InWait {
      NothingLeft(a, s);
      s' := s.(closed := true, caller := AwaitingEvents);
    } else if s.handler == Ranging {
      s' := s.(handler := Delivering);
    } else {
      s' := s.(handler := HandlerDone, caller := Returned(s.events));
    }
  }

  lemma NothingLeft(a: seq<Authorizer>, s: State)
    requires Inv(a, s)
    requires forall i :: 0 <= i < |a| ==> a[i].outcome.Responded? && s.workers[i] != Querying
    requires !s.handler.Processing? && s.responseC == []
    ensures s.wg == 0
  {
    assert Responses(s) == s.processed;
    AtLeast(s.processed, |a|);
    ProcessedFit(a, s);
  }

  /** With a URL for which no request can be built, no run ever returns: the WaitGroup keeps waiting for a
      response that is never sent. */
  lemma BadUrlNeverReturns(a: seq<Authorizer>, run: seq<State>, k: nat, i: nat)
    requires Run(a, run) && k < |run|
    requires i < |a| && a[i].outcome.BadUrl?
    ensures run[k].caller == InWait && run[k].wg > 0
  {
    RunKeepsInv(a, run, k);
    var s := run[k];
    ProcessedFit(a, s);
    if s.wg == 0 {
      ZeroMeansAll(a, s);
    }
  }

  // ----- the mint payload -----

  datatype Signature = Signature(id: string, signature: string)

  datatype Payload = Payload(ticket: Ticket, signatures: seq<Signature>)

  /** No quorum, a nil ticket dereferenced, or a payload. */
  datatype Assembly = NoQuorum | NilTicket | Minted(payload: Payload)

  /** The percentage of successes, rounded up, reaches the threshold. */
  ghost predicate HasQuorum(successes: nat, total: nat, threshold: real)
    requires total > 0
  {
    successes > 0 && exists up: int :: IsPercentUp(up, successes, total) && up as real >= threshold
  }

  ghost predicate IsPercentUp(up: int, successes: nat, total: nat) {
    (up - 1) * total < 100 * successes <= up * total
  }

  lemma QuorumTest(successes: nat, total: nat, threshold: real)
    requires total > 0
    ensures HasQuorum(successes, total, threshold)
       <==> successes > 0 && CeilDiv(100 * successes, total) as real >= threshold
  {
    var a, q := 100 * successes, CeilDiv(100 * successes, total);
    assert a + total - 1 == q * total + (a + total - 1) % total;
    assert (q - 1) * total == q * total - total;
    assert IsPercentUp(q, successes, total);
    forall up: int | IsPercentUp(up, successes, total) ensures up == q {
      OnePercentUp(up, q, successes, total);
    }
  }

  lemma OnePercentUp(up: int, up': int, successes: nat, total: nat)
    requires total > 0 && IsPercentUp(up, successes, total) && IsPercentUp(up', successes, total)
    ensures up == up'
  {
    Monotone(up, up', total);
    Monotone(up', up, total);
  }

  lemma Monotone(a: int, b: int, n: nat)
    ensures a < b ==> a * n <= (b - 1) * n
  {
  }

  predicate LacksTicket(r: JobResult) {
    r.ticket.None?
  }

  /** What the assembly makes of the results: the ticket is the first one's, every one adds a signature. */
  ghost predicate Assembles(results: seq<JobResult>, total: nat, threshold: real, p: Assembly)
    requires total > 0
  {
    && (p.NoQuorum? <==> !HasQuorum(|results|, total, threshold))
    && (p.NilTicket? <==>
          HasQuorum(|results|, total, threshold) && exists i :: 0 <= i < |results| && LacksTicket(results[i]))
    && (p.Minted? ==>
          && |p.payload.signatures| == |results| && Some(p.payload.ticket) == results[0].ticket
          && forall i :: 0 <= i < |results| ==> Signs(results[i], p.payload.signatures[i]))
  }

  predicate Signs(r: JobResult, s: Signature) {
    r.ticket.Some? && s == Signature(r.authorizerId, r.ticket.value.signature)
  }

  /** Quorum test and payload assembly, the same on both paths. */
  method MintPayload(total: nat, threshold: real, results: seq<JobResult>) returns (p: Assembly)
    requires total > 0
    ensures Assembles(results, total, threshold, p)
  {
    QuorumTest(|results|, total, threshold);
    var quorum := CeilDiv(100 * |results|, total);
    if |results| > 0 && quorum as real >= threshold {
      var burnTicket := results[0].ticket;
      var sigs := [];
      for i := 0 to |results|
        invariant |sigs| == i
        invariant forall j :: 0 <= j < i ==> !LacksTicket(results[j]) && Signs(results[j], sigs[j])
      {
        if results[i].ticket.None? {
          assert LacksTicket(results[i]);
          return NilTicket;
        }
        sigs := sigs + [Signature(results[i].authorizerId, results[i].ticket.value.signature)];
      }
      return Minted(Payload(burnTicket.value, sigs));
    }
    return NoQuorum;
  }

  ghost predicate DistinctIds(a: seq<Authorizer>) {
    forall i, j :: 0 <= i < j < |a| ==> a[i].id != a[j].id
  }

  ghost predicate ComesFrom(a: seq<Authorizer>, j: nat, r: JobResult) {
    j < |a| && AnswersWell(a[j]) && r == JobResult(a[j].id, a[j].outcome.ticket)
  }

  ghost predicate FromAuthorizer(a: seq<Authorizer>, r: JobResult) {
    exists j: nat :: ComesFrom(a, j, r)
  }

  /** With distinct authorizers every signature in a payload is from a different signer, and every signer
      is an authorizer that answered without error. */
  lemma SignersAreDistinct(a: seq<Authorizer>, run: seq<State>, k: nat)
    requires Run(a, run) && k < |run| && run[k].caller.Returned?
    requires DistinctIds(a)
    ensures forall x, y :: 0 <= x < y < |run[k].caller.results| ==>
              run[k].caller.results[x].authorizerId != run[k].caller.results[y].authorizerId
    ensures forall x :: 0 <= x < |run[k].caller.results| ==> FromAuthorizer(a, run[k].caller.results[x])
  {
    var jobs := ResultsAreErrorFreeResponses(a, run, k);
    var results := run[k].caller.results;
    forall x | 0 <= x < |results| ensures FromAuthorizer(a, results[x]) {
      var p := Source(a, jobs, x);
      assert ComesFrom(a, jobs[p], results[x]);
    }
    forall x, y | 0 <= x < y < |results| ensures results[x].authorizerId != results[y].authorizerId {
      var p := Source(a, jobs, x);
      var q := Source(a, jobs, y);
      SourcesInOrder(a, jobs, x, y, p, q);
    }
  }

  /** Position of the job that gave the x-th result: the one before which exactly x results were given. */
  lemma {:induction false} Source(a: seq<Authorizer>, jobs: seq<nat>, x: nat) returns (p: nat)
    requires forall j :: j in jobs ==> j < |a|
    requires x < |EventsOf(a, jobs)|
    ensures p < |jobs| && ComesFrom(a, jobs[p], EventsOf(a, jobs)[x])
    ensures (forall j :: j in jobs[..p] ==> j < |a|) && |EventsOf(a, jobs[..p])| == x
  {
    var m := |jobs| - 1;
    assert jobs[m] in jobs;
    assert forall j :: j in jobs[..m] ==> j in jobs;
    if x < |EventsOf(a, jobs[..m])| {
      p := Source(a, jobs[..m], x);
      assert jobs[..m][..p] == jobs[..p];
    } else {
      p := m;
    }
  }

  lemma SourcesInOrder(a: seq<Authorizer>, jobs: seq<nat>, x: nat, y: nat, p: nat, q: nat)
    requires DistinctIds(a) && Distinct(jobs)
    requires forall j :: j in jobs ==> j < |a|
    requires x < y < |EventsOf(a, jobs)|
    requires p < |jobs| && ComesFrom(a, jobs[p], EventsOf(a, jobs)[x])
    requires q < |jobs| && ComesFrom(a, jobs[q], EventsOf(a, jobs)[y])
    requires (forall j :: j in jobs[..p] ==> j < |a|) && |EventsOf(a, jobs[..p])| == x
    requires (forall j :: j in jobs[..q] ==> j < |a|) && |EventsOf(a, jobs[..q])| == y
    ensures EventsOf(a, jobs)[x].authorizerId != EventsOf(a, jobs)[y].authorizerId
  {
    assert p != q;
    assert jobs[p] != jobs[q];
  }

  /** The results and the error-free authorizers among the jobs stand for each other. */
  lemma {:induction false} EventsCover(a: seq<Authorizer>, jobs: seq<nat>)
    requires forall j :: j in jobs ==> j < |a|
    ensures forall j :: j in jobs && AnswersWell(a[j]) ==> JobResult(a[j].id, a[j].outcome.ticket) in EventsOf(a, jobs)
  {
    if jobs != [] {
      var m := |jobs| - 1;
      assert forall j :: j in jobs[..m] ==> j in jobs;
      EventsCover(a, jobs[..m]);
      assert jobs == jobs[..m] + [jobs[m]];
    }
  }

  ghost predicate SignedBy(a: Authorizer, s: Signature) {
    AnswersWell(a) && a.outcome.ticket.Some? && s == Signature(a.id, a.outcome.ticket.value.signature)
  }

  /** Every signature is that of an error-free authorizer. */
  ghost predicate OnlySigners(a: seq<Authorizer>, signatures: seq<Signature>) {
    forall x :: 0 <= x < |signatures| ==> SignedBySome(a, signatures[x])
  }

  ghost predicate SignedBySome(a: seq<Authorizer>, s: Signature) {
    exists j :: 0 <= j < |a| && SignedBy(a[j], s)
  }

  /** Every error-free authorizer has a signature. */
  ghost predicate AllSigners(a: seq<Authorizer>, signatures: seq<Signature>) {
    forall j :: 0 <= j < |a| && AnswersWell(a[j]) ==> HasSigned(a[j], signatures)
  }

  ghost predicate HasSigned(a: Authorizer, signatures: seq<Signature>) {
    exists x :: 0 <= x < |signatures| && SignedBy(a, signatures[x])
  }

  ghost predicate DistinctSigners(signatures: seq<Signature>) {
    forall x, y :: 0 <= x < y < |signatures| ==> signatures[x].id != signatures[y].id
  }

  /** An error-free authorizer without a ticket. */
  ghost predicate AnyWithoutTicket(a: seq<Authorizer>) {
    exists j :: 0 <= j < |a| && AnswersWell(a[j]) && a[j].outcome.ticket.None?
  }

  /** From the authorizers to the payload: on every run that returns, with distinct ids, the outcome is
      decided by the error-free authorizers alone. Without a quorum of them there is no payload; with one,
      a missing ticket of any of them is dereferenced; otherwise the payload holds exactly one signature
      of each of them and no other. */
  lemma PayloadOfRun(a: seq<Authorizer>, run: seq<State>, k: nat, threshold: real, p: Assembly)
    requires Run(a, run) && k < |run| && run[k].caller.Returned?
    requires DistinctIds(a) && a != []
    requires Assembles(run[k].caller.results, |a|, threshold, p)
    ensures p.NoQuorum? <==> !HasQuorum(|ErrorFree(a)|, |a|, threshold)
    ensures p.NilTicket? <==> HasQuorum(|ErrorFree(a)|, |a|, threshold) && AnyWithoutTicket(a)
    ensures p.Minted? ==>
              && |p.payload.signatures| == |ErrorFree(a)|
              && DistinctSigners(p.payload.signatures)
              && OnlySigners(a, p.payload.signatures) && AllSigners(a, p.payload.signatures)
              && exists j :: 0 <= j < |a| && AnswersWell(a[j]) && a[j].outcome.ticket == Some(p.payload.ticket)
  {
    var jobs := ResultsAreErrorFreeResponses(a, run, k);
    NilTicketIff(a, jobs);
    if p.Minted? {
      SignaturesOnly(a, jobs, p.payload.signatures);
      SignaturesAll(a, jobs, p.payload.signatures);
      SignersAreDistinct(a, run, k);
      var first := Source(a, jobs, 0);
      assert a[jobs[first]].outcome.ticket == Some(p.payload.ticket);
    }
  }

  ghost predicate AllJobs(a: seq<Authorizer>, jobs: seq<nat>) {
    forall i: nat :: i in jobs <==> i < |a|
  }

  lemma Appears(a: seq<Authorizer>, jobs: seq<nat>, j: nat) returns (x: nat)
    requires AllJobs(a, jobs) && j < |a| && AnswersWell(a[j])
    ensures x < |EventsOf(a, jobs)| && EventsOf(a, jobs)[x] == JobResult(a[j].id, a[j].outcome.ticket)
  {
    EventsCover(a, jobs);
    assert JobResult(a[j].id, a[j].outcome.ticket) in EventsOf(a, jobs);
    x :| 0 <= x < |EventsOf(a, jobs)| && EventsOf(a, jobs)[x] == JobResult(a[j].id, a[j].outcome.ticket);
  }

  lemma NilTicketIff(a: seq<Authorizer>, jobs: seq<nat>)
    requires AllJobs(a, jobs)
    ensures (exists i :: 0 <= i < |EventsOf(a, jobs)| && LacksTicket(EventsOf(a, jobs)[i])) <==> AnyWithoutTicket(a)
  {
    var results := EventsOf(a, jobs);
    if i :| 0 <= i < |results| && LacksTicket(results[i]) {
      var p := Source(a, jobs, i);
      assert a[jobs[p]].outcome.ticket.None?;
    }
    if j :| 0 <= j < |a| && AnswersWell(a[j]) && a[j].outcome.ticket.None? {
      var x := Appears(a, jobs, j);
      assert LacksTicket(results[x]);
    }
  }

  lemma SignaturesOnly(a: seq<Authorizer>, jobs: seq<nat>, signatures: seq<Signature>)
    requires AllJobs(a, jobs) && |signatures| == |EventsOf(a, jobs)|
    requires forall x :: 0 <= x < |signatures| ==> Signs(EventsOf(a, jobs)[x], signatures[x])
    ensures OnlySigners(a, signatures)
  {
    forall x | 0 <= x < |signatures| ensures SignedBySome(a, signatures[x]) {
      var p := Source(a, jobs, x);
      assert Signs(EventsOf(a, jobs)[x], signatures[x]);
      assert SignedBy(a[jobs[p]], signatures[x]);
    }
  }

  lemma SignaturesAll(a: seq<Authorizer>, jobs: seq<nat>, signatures: seq<Signature>)
    requires AllJobs(a, jobs) && |signatures| == |EventsOf(a, jobs)|
    requires forall x :: 0 <= x < |signatures| ==> Signs(EventsOf(a, jobs)[x], signatures[x])
    ensures AllSigners(a, signatures)
  {
    forall j | 0 <= j < |a| && AnswersWell(a[j]) ensures HasSigned(a[j], signatures) {
      var x := Appears(a, jobs, j);
      assert Signs(EventsOf(a, jobs)[x], signatures[x]);
      assert SignedBy(a[j], signatures[x]);
    }
  }
}
