/** The parallel HTTP engine of core/resty/resty.go: Do starts one goroutine per URL, each of which sends
    one result into a channel of capacity qty; Wait and First take results until they have enough, or
    until the context is cancelled. A run is any interleaving of these steps. */
module Resty {
  import opened Support
  import opened Cardinality

  /** What the goroutine of a URL finally sends. */
  datatype Result = Result(statusCode: Option<int>, body: string, err: Option<string>)

  datatype Mode = Wait | First

  /** A Do call: the results of its URLs, whether a handler was set, and how they are collected. */
  datatype Call = Call(results: seq<Result>, hasHandler: bool, mode: Mode)

  const DEADLINE_EXCEEDED := "context deadline exceeded"

  datatype Context = Live | Canceled | TimedOut

  /** A result taken from the channel, and what the handler returned for it. */
  datatype Handled = Handled(url: nat, handlerErr: Option<string>)

  datatype Consumer = Collecting | Returned(errs: seq<string>)

  datatype State = State(
    sent: seq<bool>,        // per URL: the goroutine has sent its result
    done: seq<nat>,         // the channel
    log: seq<Handled>,      // results handled so far, in order of arrival
    errs: seq<string>,
    ctx: Context,
    consumer: Consumer)

  function Init(c: Call): State {
    State(seq(|c.results|, _ => false), [], [], [], Live, if c.results == [] then Returned([]) else Collecting)
  }

  /** The error a handled result counts for: the handler's, otherwise, for Wait or without a handler, the
      request's own. */
  function ErrorOf(c: Call, h: Handled): Option<string>
    requires h.url < |c.results|
  {
    if c.hasHandler && (h.handlerErr.Some? || c.mode == First) then h.handlerErr
    else c.results[h.url].err
  }

  ghost predicate Send(c: Call, s: State, s': State, i: nat) {
    && i < |s.sent| && !s.sent[i]
    && |s.done| < |c.results|
    && s' == s.(sent := s.sent[i := true], done := s.done + [i])
  }

  /** The parent context is cancelled or runs into its deadline. */
  ghost predicate CancelParent(s: State, s': State) {
    s.ctx == Live && (s' == s.(ctx := Canceled) || s' == s.(ctx := TimedOut))
  }

  function ErrorsOnCancel(c: Call, s: State): seq<string> {
    if c.mode == Wait && s.ctx == TimedOut then [DEADLINE_EXCEEDED] else s.errs
  }

  ghost predicate ReturnCancelled(c: Call, s: State, s': State) {
    && s.consumer == Collecting && s.ctx != Live
    && s' == s.(consumer := Returned(ErrorsOnCancel(c, s)))
  }

  /** Takes a result; the handler may return any error and may call the cancel function. */
  ghost predicate Handle(c: Call, s: State, s': State, handlerErr: Option<string>, cancels: bool) {
    && s.consumer == Collecting && s.done != [] && s.done[0] < |c.results|
    && (!c.hasHandler ==> handlerErr.None? && !cancels)
    && var h := Handled(s.done[0], handlerErr);
       var err := ErrorOf(c, h);
       var log := s.log + [h];
       var errs := if err.Some? then s.errs + [err.value] else s.errs;
       var consumer := if c.mode == First && err.None? then Returned([])
                       else if |log| >= |c.results| then Returned(errs)
                       else Collecting;
       s' == State(s.sent, s.done[1..], log, errs, if cancels && s.ctx == Live then Canceled else s.ctx, consumer)
  }

  ghost predicate Next(c: Call, s: State, s': State) {
    || (exists i: nat :: Send(c, s, s', i))
    || CancelParent(s, s')
    || ReturnCancelled(c, s, s')
    || (exists e, k :: Handle(c, s, s', e, k))
  }

  ghost predicate Run(c: Call, run: seq<State>) {
    && run != [] && run[0] == Init(c)
    && forall k :: 0 < k < |run| ==> Next(c, run[k - 1], run[k])
  }

  // ----- the invariant -----

  /** The URLs whose results were handled, then those waiting in the channel. */
  function Urls(log: seq<Handled>): (urls: seq<nat>)
    ensures |urls| == |log|
    ensures forall i :: 0 <= i < |log| ==> urls[i] == log[i].url
  {
    seq(|log|, i requires 0 <= i < |log| => log[i].url)
  }

  /** Every URL that has sent is either handled or still in the channel, once. */
  ghost predicate Conserved(s: State) {
    && Distinct(Urls(s.log) + s.done)
    && forall i: nat :: i in Urls(s.log) + s.done <==> i < |s.sent| && s.sent[i]
  }

  /** Errors in order of arrival. */
  function Errors(c: Call, log: seq<Handled>): seq<string>
    requires forall i :: 0 <= i < |log| ==> log[i].url < |c.results|
  {
    if log == [] then []
    else
      var m := |log| - 1;
      var err := ErrorOf(c, log[m]);
      Errors(c, log[..m]) + if err.Some? then [err.value] else []
  }

  ghost predicate Logged(c: Call, log: seq<Handled>) {
    forall i :: 0 <= i < |log| ==> log[i].url < |c.results|
  }

  ghost predicate AllFail(c: Call, log: seq<Handled>)
    requires Logged(c, log)
  {
    forall i :: 0 <= i < |log| ==> ErrorOf(c, log[i]).Some?
  }

  /** What a consumer that was not cancelled has seen when it returns. */
  ghost predicate Complete(c: Call, s: State)
    requires Logged(c, s.log)
  {
    match c.mode
    case Wait => |s.log| == |c.results| && s.consumer == Returned(Errors(c, s.log))
    case First =>
      || (|s.log| == |c.results| && AllFail(c, s.log) && s.consumer == Returned(Errors(c, s.log)))
      || (s.log != [] && AllFail(c, s.log[..|s.log| - 1]) && ErrorOf(c, s.log[|s.log| - 1]).None?
          && s.consumer == Returned([]))
  }

  ghost predicate Inv(c: Call, s: State) {
    && |s.sent| == |c.results|
    && Conserved(s)
    && Logged(c, s.log)
    && s.errs == Errors(c, s.log)
    && (s.consumer == Collecting ==> |s.log| < |c.results| && (c.mode == First ==> AllFail(c, s.log)))
    && (s.consumer != Collecting ==>
          Complete(c, s) || (s.ctx != Live && s.consumer == Returned(ErrorsOnCancel(c, s))))
  }

  lemma SendKeeps(c: Call, s: State, s': State, i: nat)
    requires Inv(c, s) && Send(c, s, s', i)
    ensures Inv(c, s')
  {
    assert Urls(s.log) + s'.done == (Urls(s.log) + s.done) + [i];
    assert i !in Urls(s.log) + s.done;
  }

  lemma HandleKeeps(c: Call, s: State, s': State, e: Option<string>, cancels: bool)
    requires Inv(c, s) && Handle(c, s, s', e, cancels)
    ensures Inv(c, s')
  {
    HandleConserves(c, s, s', e, cancels);
    assert s'.log[..|s'.log| - 1] == s.log;
    assert s'.errs == Errors(c, s'.log);
  }

  lemma HandleConserves(c: Call, s: State, s': State, e: Option<string>, cancels: bool)
    requires Conserved(s) && Logged(c, s.log) && Handle(c, s, s', e, cancels)
    ensures Conserved(s') && Logged(c, s'.log)
  {
    assert Urls(s'.log) + s'.done == Urls(s.log) + s.done;
  }

  lemma CancelKeeps(c: Call, s: State, s': State)
    requires Inv(c, s) && (CancelParent(s, s') || ReturnCancelled(c, s, s'))
    ensures Inv(c, s')
  {
  }

  lemma NextKeeps(c: Call, s: State, s': State)
    requires Inv(c, s) && Next(c, s, s')
    ensures Inv(c, s')
  {
    if i: nat :| Send(c, s, s', i) {
      SendKeeps(c, s, s', i);
    } else if e, cancels :| Handle(c, s, s', e, cancels) {
      HandleKeeps(c, s, s', e, cancels);
    } else {
      CancelKeeps(c, s, s');
    }
  }

  lemma {:induction false} RunKeepsInv(c: Call, run: seq<State>, k: nat)
    requires Run(c, run) && k < |run|
    ensures Inv(c, run[k])
  {
    if k > 0 {
      RunKeepsInv(c, run, k - 1);
      NextKeeps(c, run[k - 1], run[k]);
    }
  }

  // ----- what every run guarantees -----

  /** No goroutine ever blocks on its send, even after Wait or First has returned early. */
  lemma SendNeverBlocks(c: Call, run: seq<State>, k: nat, i: nat)
    requires Run(c, run) && k < |run|
    requires i < |run[k].sent| && !run[k].sent[i]
    ensures |run[k].done| < |c.results|
    ensures exists s' :: Send(c, run[k], s', i)
  {
    RunKeepsInv(c, run, k);
    var s := run[k];
    FewerThan(Urls(s.log) + s.done, |c.results|, i);
    assert Send(c, s, s.(sent := s.sent[i := true], done := s.done + [i]), i);
  }

  /** A result is handled at most once, and only after its goroutine has sent it. */
  lemma EachUrlHandledOnce(c: Call, run: seq<State>, k: nat)
    requires Run(c, run) && k < |run|
    ensures Distinct(Urls(run[k].log))
    ensures forall i :: 0 <= i < |run[k].log| ==> run[k].log[i].url < |run[k].sent| && run[k].sent[run[k].log[i].url]
  {
    RunKeepsInv(c, run, k);
    var s := run[k];
    var all := Urls(s.log) + s.done;
    assert forall i :: 0 <= i < |s.log| ==> all[i] == s.log[i].url && all[i] in all;
  }

  /** What a handled result counts for under Wait: the handler's error if it has one, otherwise the
      request's error if there is one, otherwise nothing. */
  ghost predicate CountsForWait(c: Call, h: Handled, err: Option<string>)
    requires h.url < |c.results|
  {
    && (h.handlerErr.Some? ==> err == h.handlerErr)
    && (h.handlerErr.None? && c.results[h.url].err.Some? ==> err == c.results[h.url].err)
    && (h.handlerErr.None? && c.results[h.url].err.None? ==> err == None)
  }

  /** Under First: the handler's error where there is a handler, the request's where there is none. */
  ghost predicate CountsForFirst(c: Call, h: Handled, err: Option<string>)
    requires h.url < |c.results|
  {
    && (c.hasHandler ==> err == h.handlerErr)
    && (!c.hasHandler ==> err == c.results[h.url].err)
  }

  /** The list of errors is, entry by entry of the log, what the entry counts for: `at` are the entries
      that count for an error. */
  ghost predicate InOrder(errs: seq<string>, counts: seq<Option<string>>, at: seq<nat>) {
    && |at| == |errs|
    && (forall k :: 0 <= k < |at| ==> at[k] < |counts| && counts[at[k]] == Some(errs[k]))
    && (forall k, l :: 0 <= k < l < |at| ==> at[k] < at[l])
    && (forall i: nat :: i < |counts| && counts[i].Some? ==> i in at)
  }

  ghost predicate Counted(c: Call, log: seq<Handled>, counts: seq<Option<string>>)
    requires Logged(c, log)
  {
    && |counts| == |log|
    && forall i :: 0 <= i < |log| ==>
         if c.mode == Wait then CountsForWait(c, log[i], counts[i]) else CountsForFirst(c, log[i], counts[i])
  }

  /** Without a handler no entry has a handler's error. */
  ghost predicate NoHandlerErrors(c: Call, log: seq<Handled>) {
    !c.hasHandler ==> forall i :: 0 <= i < |log| ==> log[i].handlerErr.None?
  }

  lemma {:induction false} HandlerErrorsNeedHandler(c: Call, run: seq<State>, k: nat)
    requires Run(c, run) && k < |run|
    ensures NoHandlerErrors(c, run[k].log)
  {
    if k > 0 {
      HandlerErrorsNeedHandler(c, run, k - 1);
    }
  }

  lemma {:induction false} ErrorsInOrder(c: Call, log: seq<Handled>) returns (counts: seq<Option<string>>, at: seq<nat>)
    requires Logged(c, log) && NoHandlerErrors(c, log)
    ensures Counted(c, log, counts) && InOrder(Errors(c, log), counts, at)
  {
    if log == [] {
      counts, at := [], [];
    } else {
      var m := |log| - 1;
      var before, from := ErrorsInOrder(c, log[..m]);
      var err := ErrorOf(c, log[m]);
      InOrderGrows(Errors(c, log[..m]), before, from, err);
      counts, at := before + [err], if err.Some? then from + [m] else from;
    }
  }

  lemma InOrderGrows(errs: seq<string>, counts: seq<Option<string>>, at: seq<nat>, err: Option<string>)
    requires InOrder(errs, counts, at)
    ensures err.None? ==> InOrder(errs, counts + [err], at)
    ensures err.Some? ==> InOrder(errs + [err.value], counts + [err], at + [|counts|])
  {
    if err.Some? {
      var at' := at + [|counts|];
      assert forall i: nat :: i in at ==> i in at';
      assert at'[|at|] == |counts|;
    }
  }

  /** A Wait that was not cancelled returns after handling every URL exactly once. Its errors are, in
      order of arrival, the handler's error if it has one, otherwise the request's. */
  lemma UncancelledWaitHandlesAll(c: Call, run: seq<State>, k: nat)
    returns (errs: seq<string>, counts: seq<Option<string>>, at: seq<nat>)
    requires Run(c, run) && k < |run| && c.mode == Wait
    requires run[k].ctx == Live && run[k].consumer != Collecting
    ensures run[k].consumer == Returned(errs)
    ensures Logged(c, run[k].log) && |counts| == |run[k].log|
    ensures forall i :: 0 <= i < |counts| ==> CountsForWait(c, run[k].log[i], counts[i])
    ensures InOrder(errs, counts, at)
    ensures Distinct(Urls(run[k].log))
    ensures forall url: nat :: url < |c.results| <==> url in Urls(run[k].log)
  {
    RunKeepsInv(c, run, k);
    EachUrlHandledOnce(c, run, k);
    AllBelow(Urls(run[k].log), |c.results|);
    HandlerErrorsNeedHandler(c, run, k);
    errs := run[k].errs;
    counts, at := ErrorsInOrder(c, run[k].log);
  }

  /** The entry counts as a success under First. */
  ghost predicate Succeeded(c: Call, h: Handled)
    requires h.url < |c.results|
  {
    if c.hasHandler then h.handlerErr.None? else c.results[h.url].err.None?
  }

  /** A First that was not cancelled returns no errors exactly when the last result it handled was a
      success, all earlier ones having failed; otherwise it has handled every URL, all failed, and it
      returns all their errors in order of arrival. */
  lemma UncancelledFirst(c: Call, run: seq<State>, k: nat)
    returns (errs: seq<string>, counts: seq<Option<string>>, at: seq<nat>)
    requires Run(c, run) && k < |run| && c.mode == First && c.results != []
    requires run[k].ctx == Live && run[k].consumer != Collecting
    ensures Logged(c, run[k].log) && run[k].log != [] && run[k].consumer == Returned(errs)
    ensures forall i :: 0 <= i < |run[k].log| - 1 ==> !Succeeded(c, run[k].log[i])
    ensures errs == [] <==> Succeeded(c, run[k].log[|run[k].log| - 1])
    ensures errs != [] ==>
              && |run[k].log| == |c.results| == |counts| && InOrder(errs, counts, at)
              && forall i :: 0 <= i < |counts| ==> CountsForFirst(c, run[k].log[i], counts[i])
  {
    RunKeepsInv(c, run, k);
    HandlerErrorsNeedHandler(c, run, k);
    var s := run[k];
    if AllFail(c, s.log) && s.log != [] {
      assert Errors(c, s.log) != [];
    }
    errs := s.consumer.errs;
    counts, at := ErrorsInOrder(c, s.log);
  }

  /** A collector that returns early, because the context is done, returns the errors so far; Wait returns
      the deadline's error instead if the deadline ended it. */
  lemma CancelledReturn(c: Call, run: seq<State>, k: nat)
    returns (errs: seq<string>, counts: seq<Option<string>>, at: seq<nat>)
    requires Run(c, run) && k < |run| && run[k].ctx != Live
    requires run[k].consumer != Collecting && |run[k].log| < |c.results|
    requires c.mode == Wait || run[k].consumer != Returned([])
    ensures Logged(c, run[k].log) && run[k].consumer == Returned(errs)
    ensures c.mode == Wait && run[k].ctx == TimedOut ==> errs == ["context deadline exceeded"]
    ensures !(c.mode == Wait && run[k].ctx == TimedOut) ==>
              Counted(c, run[k].log, counts) && InOrder(errs, counts, at)
  {
    RunKeepsInv(c, run, k);
    HandlerErrorsNeedHandler(c, run, k);
    errs := run[k].consumer.errs;
    counts, at := ErrorsInOrder(c, run[k].log);
  }

  /** Once every goroutine has sent, a consumer still collecting has something to take. */
  lemma CollectorIsNotStuck(c: Call, run: seq<State>, k: nat)
    requires Run(c, run) && k < |run|
    requires run[k].consumer == Collecting
    requires forall i :: 0 <= i < |run[k].sent| ==> run[k].sent[i]
    ensures run[k].done != []
  {
    RunKeepsInv(c, run, k);
    AtLeast(Urls(run[k].log) + run[k].done, |c.results|);
  }

  // ----- every run comes to an end -----

  function Unsent(sent: seq<bool>): nat {
    if sent == [] then 0 else Unsent(sent[..|sent| - 1]) + if sent[|sent| - 1] then 0 else 1
  }

  lemma {:induction false} SendLowers(sent: seq<bool>, i: nat)
    requires i < |sent| && !sent[i]
    ensures Unsent(sent[i := true]) == Unsent(sent) - 1
  {
    var m := |sent| - 1;
    if i < m {
      SendLowers(sent[..m], i);
      assert sent[i := true][..m] == sent[..m][i := true];
    } else {
      assert sent[i := true][..m] == sent[..m];
    }
  }

  /** Steps still to be taken by anybody; it falls with every step. */
  function Work(s: State): nat {
    2 * Unsent(s.sent) + |s.done| + (if s.ctx == Live then 1 else 0) + (if s.consumer == Collecting then 1 else 0)
  }

  lemma EveryStepIsProgress(c: Call, s: State, s': State)
    requires Next(c, s, s')
    ensures Work(s') < Work(s)
  {
    if i: nat :| Send(c, s, s', i) {
      SendLowers(s.sent, i);
    }
  }

  lemma {:induction false} RunsAreShort(c: Call, run: seq<State>)
    requires Run(c, run)
    ensures |run| - 1 + Work(run[|run| - 1]) <= 2 * |c.results| + 2
    decreases |run|
  {
    var m := |run| - 1;
    if m == 0 {
      AllUnsent(|c.results|);
    } else {
      RunsAreShort(c, run[..m]);
      EveryStepIsProgress(c, run[m - 1], run[m]);
    }
  }

  lemma {:induction false} AllUnsent(n: nat)
    ensures Unsent(seq(n, _ => false)) == n
  {
    if n > 0 {
      AllUnsent(n - 1);
      assert seq(n, _ => false)[..n - 1] == seq(n - 1, _ => false);
    }
  }

  /** As long as the collector has not returned somebody can take a step; since every step is progress,
      Wait and First always return. */
  lemma CollectorGoesOn(c: Call, run: seq<State>, k: nat) returns (s': State)
    requires Run(c, run) && k < |run| && run[k].consumer == Collecting
    ensures Next(c, run[k], s')
  {
    RunKeepsInv(c, run, k);
    var s := run[k];
    if i: nat :| i < |s.sent| && !s.sent[i] {
      SendNeverBlocks(c, run, k, i);
      s' :| Send(c, s, s', i);
    } else {
      CollectorIsNotStuck(c, run, k);
      s' := HandleFirst(c, s);
    }
  }

  lemma HandleFirst(c: Call, s: State) returns (s': State)
    requires Inv(c, s) && s.consumer == Collecting && s.done != []
    ensures Next(c, s, s')
  {
    var all := Urls(s.log) + s.done;
    assert all[|s.log|] == s.done[0] && all[|s.log|] in all;
    var h := Handled(s.done[0], None);
    var err := ErrorOf(c, h);
    var log := s.log + [h];
    var errs := if err.Some? then s.errs + [err.value] else s.errs;
    var consumer := if c.mode == First && err.None? then Returned([])
                    else if |log| >= |c.results| then Returned(errs)
                    else Collecting;
    s' := State(s.sent, s.done[1..], log, errs, s.ctx, consumer);
    assert Handle(c, s, s', None, false);
  }
}
