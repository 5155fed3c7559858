/** The request body of one Do call of core/resty/resty.go: the goroutines of all URLs read the same reader.
    A run is any interleaving of building requests, first attempts and further attempts. */
module SharedBody {
  import opened Streams
  import HttpRetry

  /** A URL's goroutine. `snapshot` is what the reader held when its request was built, `first` what it held
      when its first attempt started, `retries` how many further attempts were made. */
  datatype Request =
    | NotBuilt
    | Built(snapshot: string)
    | Attempted(snapshot: string, first: string, retries: nat)

  /** `left` is what the reader still holds, `portions` what the first attempts took from it, in order. */
  datatype State = State(left: string, requests: seq<Request>, portions: seq<string>)

  function Init(content: string, urls: nat): State {
    State(content, seq(urls, _ => NotBuilt), [])
  }

  ghost predicate Build(s: State, s': State, i: nat) {
    && i < |s.requests| && s.requests[i] == NotBuilt
    && s' == s.(requests := s.requests[i := Built(s.left)])
  }

  /** The first attempt reads from the shared reader: all of it, or less when sending fails. */
  ghost predicate FirstAttempt(s: State, s': State, i: nat, taken: nat) {
    && i < |s.requests| && s.requests[i].Built? && taken <= |s.left|
    && s' == State(s.left[taken..], s.requests[i := Attempted(s.requests[i].snapshot, s.left, 0)],
                  s.portions + [s.left[..taken]])
  }

  /** A further attempt sends its own copy of the snapshot. */
  ghost predicate Retry(s: State, s': State, i: nat) {
    && i < |s.requests| && s.requests[i].Attempted?
    && var r := s.requests[i];
       s' == s.(requests := s.requests[i := Attempted(r.snapshot, r.first, r.retries + 1)])
  }

  ghost predicate Step(s: State, s': State, i: nat) {
    Build(s, s', i) || Retry(s, s', i) || exists taken: nat :: FirstAttempt(s, s', i, taken)
  }

  ghost predicate Next(s: State, s': State) {
    exists i: nat :: Step(s, s', i)
  }

  ghost predicate Run(content: string, urls: nat, run: seq<State>) {
    && run != [] && run[0] == Init(content, urls)
    && forall k :: 0 < k < |run| ==> Next(run[k - 1], run[k])
  }

  /** What the attempts of a request send, as HttpRetry.Attempt does. */
  function Sent(r: Request): seq<string> {
    if r.Attempted? then [r.first] + seq(r.retries, _ => r.snapshot) else []
  }

  lemma SentAsByAttempt(r: Request, t: HttpRetry.Trace)
    requires r.Attempted? && t.attempts == r.retries + 1
    requires HttpRetry.SendsCopies(HttpRetry.RequestBody(r.snapshot, r.first), t)
    ensures Sent(r) == t.sent
  {
  }

  ghost predicate Suffix(s: string, t: string) {
    |s| <= |t| && s == t[|t| - |s|..]
  }

  lemma SuffixOfSuffix(s: string, t: string, u: string)
    requires Suffix(s, t) && Suffix(t, u)
    ensures Suffix(s, u)
  {
  }

  ghost predicate Untouched(s: State) {
    forall i :: 0 <= i < |s.requests| ==> !s.requests[i].Attempted?
  }

  /** The first attempts share one copy of the body among them; every snapshot reaches from where the
      reader stood to the end of the body. */
  ghost predicate Inv(content: string, urls: nat, s: State) {
    && |s.requests| == urls
    && Flatten(s.portions) + s.left == content
    && (forall i :: 0 <= i < urls && !s.requests[i].NotBuilt? ==>
          Suffix(s.requests[i].snapshot, content) && Suffix(s.left, s.requests[i].snapshot))
    && (forall i :: 0 <= i < urls && s.requests[i].Attempted? ==> Suffix(s.requests[i].first, s.requests[i].snapshot))
    && (Untouched(s) ==> s.left == content)
  }

  lemma BuildKeeps(content: string, urls: nat, s: State, s': State, i: nat)
    requires Inv(content, urls, s) && Build(s, s', i)
    ensures Inv(content, urls, s')
  {
    SuffixOfContent(content, s);
    assert s'.requests[i].Built?;
    assert Untouched(s') ==> Untouched(s) by {
      if j :| 0 <= j < |s.requests| && s.requests[j].Attempted? {
        assert s'.requests[j].Attempted?;
      }
    }
  }

  lemma SuffixOfContent(content: string, s: State)
    requires Flatten(s.portions) + s.left == content
    ensures Suffix(s.left, content)
  {
  }

  lemma FirstAttemptKeeps(content: string, urls: nat, s: State, s': State, i: nat, taken: nat)
    requires Inv(content, urls, s) && FirstAttempt(s, s', i, taken)
    ensures Inv(content, urls, s')
  {
    FlattenAppend(s.portions, s.left[..taken]);
    assert s.left == s.left[..taken] + s.left[taken..];
    assert Suffix(s'.left, s.left);
    assert s'.requests[i].Attempted?;
    forall j | 0 <= j < urls && !s'.requests[j].NotBuilt? ensures Suffix(s'.left, s'.requests[j].snapshot) {
      SuffixOfSuffix(s'.left, s.left, s.requests[j].snapshot);
    }
  }

  lemma RetryKeeps(content: string, urls: nat, s: State, s': State, i: nat)
    requires Inv(content, urls, s) && Retry(s, s', i)
    ensures Inv(content, urls, s')
  {
    assert s'.requests[i].Attempted?;
  }

  lemma StepKeeps(content: string, urls: nat, s: State, s': State, i: nat)
    requires Inv(content, urls, s) && Step(s, s', i)
    ensures Inv(content, urls, s')
  {
    if Build(s, s', i) {
      BuildKeeps(content, urls, s, s', i);
    } else if Retry(s, s', i) {
      RetryKeeps(content, urls, s, s', i);
    } else {
      var taken: nat :| FirstAttempt(s, s', i, taken);
      FirstAttemptKeeps(content, urls, s, s', i, taken);
    }
  }

  lemma {:induction false} RunKeepsInv(content: string, urls: nat, run: seq<State>, k: nat)
    requires Run(content, urls, run) && k < |run|
    ensures Inv(content, urls, run[k])
  {
    if k > 0 {
      RunKeepsInv(content, urls, run, k - 1);
      var i: nat :| Step(run[k - 1], run[k], i);
      StepKeeps(content, urls, run[k - 1], run[k], i);
    }
  }

  ghost predicate OneWhole(content: string, s: State) {
    && |s.requests| == 1
    && match s.requests[0]
       case NotBuilt => s.left == content
       case Built(snapshot) => s.left == snapshot == content
       case Attempted(snapshot, first, _) => snapshot == first == content
  }

  lemma OneWholeStep(content: string, s: State, s': State, i: nat)
    requires OneWhole(content, s) && Step(s, s', i)
    ensures OneWhole(content, s')
  {
  }

  /** With a single URL every attempt sends the whole body. */
  lemma {:induction false} OneUrlSendsTheBody(content: string, run: seq<State>, k: nat)
    requires Run(content, 1, run) && k < |run|
    ensures OneWhole(content, run[k])
    ensures forall sent :: sent in Sent(run[k].requests[0]) ==> sent == content
  {
    if k > 0 {
      OneUrlSendsTheBody(content, run, k - 1);
      var i: nat :| Step(run[k - 1], run[k], i);
      OneWholeStep(content, run[k - 1], run[k], i);
    }
  }

  // ----- several URLs, when every first attempt reads all that is left -----

  ghost predicate Drains(s: State, s': State) {
    s'.portions == s.portions || s'.left == ""
  }

  ghost predicate DrainingRun(content: string, urls: nat, run: seq<State>) {
    && Run(content, urls, run)
    && forall k :: 0 < k < |run| ==> Drains(run[k - 1], run[k])
  }

  /** Before the first attempt every snapshot is the whole body; after it nothing is left, and only one
      first attempt has sent the body. */
  ghost predicate Drained(content: string, s: State) {
    && s.left == (if Untouched(s) then content else "")
    && (Untouched(s) ==>
          forall i :: 0 <= i < |s.requests| && s.requests[i].Built? ==> s.requests[i].snapshot == content)
    && (forall i :: 0 <= i < |s.requests| && !s.requests[i].NotBuilt? ==> s.requests[i].snapshot in {content, ""})
    && (forall i :: 0 <= i < |s.requests| && s.requests[i].Attempted? ==> s.requests[i].first in {content, ""})
    && (forall i, j :: 0 <= i < j < |s.requests| && s.requests[i].Attempted? && s.requests[j].Attempted? ==>
          s.requests[i].first == "" || s.requests[j].first == "")
  }

  lemma {:induction false} DrainingKeeps(content: string, urls: nat, run: seq<State>, k: nat)
    requires DrainingRun(content, urls, run) && k < |run|
    ensures Drained(content, run[k])
  {
    if k > 0 {
      DrainingKeeps(content, urls, run, k - 1);
      var i: nat :| Step(run[k - 1], run[k], i);
      assert Drains(run[k - 1], run[k]);
      DrainingStep(content, run[k - 1], run[k], i);
    }
  }

  lemma DrainingStep(content: string, s: State, s': State, i: nat)
    requires Drained(content, s) && Drains(s, s') && Step(s, s', i)
    ensures Drained(content, s')
  {
    if Build(s, s', i) {
      TouchedStays(s, s', i);
    } else if Retry(s, s', i) {
      assert s'.requests[i].Attempted?;
      assert s.requests[i].Attempted?;
    } else {
      var taken: nat :| FirstAttempt(s, s', i, taken);
      assert s'.requests[i].Attempted?;
      assert |s'.portions| == |s.portions| + 1;
    }
  }

  lemma TouchedStays(s: State, s': State, i: nat)
    requires Build(s, s', i)
    ensures Untouched(s') <==> Untouched(s)
  {
    if j :| 0 <= j < |s.requests| && s.requests[j].Attempted? {
      assert s'.requests[j].Attempted?;
    }
  }

  /** The request was built before any first attempt. */
  ghost predicate BuiltEarly(run: seq<State>, k: nat, i: nat)
    requires k < |run|
  {
    exists j: nat :: j <= k && BuiltUntouched(run[j], i)
  }

  ghost predicate BuiltUntouched(s: State, i: nat) {
    i < |s.requests| && s.requests[i].Built? && Untouched(s)
  }

  ghost predicate HoldsBody(content: string, s: State, i: nat) {
    i < |s.requests| && !s.requests[i].NotBuilt? && s.requests[i].snapshot == content
  }

  /** One step makes request i hold the body exactly when it builds it before any first attempt. */
  lemma HoldsBodyStep(content: string, s: State, s': State, b: nat, i: nat)
    requires content != "" && Drained(content, s) && Drained(content, s') && Step(s, s', b)
    ensures HoldsBody(content, s', i) <==> HoldsBody(content, s, i) || BuiltUntouched(s', i)
  {
    if Build(s, s', b) {
      TouchedStays(s, s', b);
    }
  }

  /** Which attempts send the body: a further attempt does exactly when its request was built before any
      first attempt, and otherwise sends nothing at all. */
  lemma {:induction false} FurtherAttemptsSendTheBodyIff(content: string, urls: nat, run: seq<State>, k: nat, i: nat)
    requires DrainingRun(content, urls, run) && k < |run| && content != ""
    ensures HoldsBody(content, run[k], i) <==> BuiltEarly(run, k, i)
    ensures i < |run[k].requests| && !run[k].requests[i].NotBuilt? && !BuiltEarly(run, k, i) ==>
              run[k].requests[i].snapshot == ""
  {
    DrainingKeeps(content, urls, run, k);
    if k > 0 {
      DrainingKeeps(content, urls, run, k - 1);
      FurtherAttemptsSendTheBodyIff(content, urls, run, k - 1, i);
      EarlyStep(run, k, i);
      var b: nat :| Step(run[k - 1], run[k], b);
      HoldsBodyStep(content, run[k - 1], run[k], b, i);
    } else {
      assert forall j: nat :: j <= 0 ==> !BuiltUntouched(run[j], i);
    }
  }

  lemma EarlyStep(run: seq<State>, k: nat, i: nat)
    requires 0 < k < |run|
    ensures BuiltEarly(run, k, i) <==> BuiltEarly(run, k - 1, i) || BuiltUntouched(run[k], i)
  {
    if j: nat :| j <= k && BuiltUntouched(run[j], i) {
      assert j == k || j <= k - 1;
    }
  }

  /** Of the first attempts of two different URLs, at most one sends anything. */
  lemma OneFirstAttemptSendsTheBody(content: string, urls: nat, run: seq<State>, k: nat, i: nat, j: nat)
    requires DrainingRun(content, urls, run) && k < |run|
    requires i < |run[k].requests| && j < |run[k].requests| && i != j
    requires run[k].requests[i].Attempted? && run[k].requests[j].Attempted?
    ensures run[k].requests[i].first == "" || run[k].requests[j].first == ""
  {
    DrainingKeeps(content, urls, run, k);
  }

  // ----- when every attempt sends the whole body -----

  ghost predicate AllWhole(content: string, s: State) {
    forall i :: 0 <= i < |s.requests| ==> Whole(content, s.requests[i])
  }

  ghost predicate Whole(content: string, r: Request) {
    forall k :: 0 <= k < |Sent(r)| ==> Sent(r)[k] == content
  }

  ghost predicate EveryRunIsWhole(content: string, urls: nat) {
    forall run :: Run(content, urls, run) ==> AllWhole(content, run[|run| - 1])
  }

  ghost predicate EveryDrainingRunIsWhole(content: string, urls: nat) {
    forall run :: DrainingRun(content, urls, run) ==> AllWhole(content, run[|run| - 1])
  }

  /** The exact condition, known before the call: every attempt of every run sends the whole body if and
      only if there is at most one URL or no body. It is the same when every first attempt reads all that
      is left. */
  lemma WholeBodyIff(content: string, urls: nat)
    ensures EveryRunIsWhole(content, urls) <==> urls <= 1 || content == ""
    ensures EveryDrainingRunIsWhole(content, urls) <==> urls <= 1 || content == ""
  {
    if urls <= 1 || content == "" {
      forall run | Run(content, urls, run) ensures AllWhole(content, run[|run| - 1]) {
        SafeRun(content, urls, run);
      }
    } else {
      var run := SecondUrlSendsNothing(content, urls);
      assert DrainingRun(content, urls, run) && !AllWhole(content, run[|run| - 1]);
    }
  }

  lemma SafeRun(content: string, urls: nat, run: seq<State>)
    requires Run(content, urls, run) && (urls <= 1 || content == "")
    ensures AllWhole(content, run[|run| - 1])
  {
    var last := run[|run| - 1];
    if urls == 1 {
      OneUrlSendsTheBody(content, run, |run| - 1);
      OneIsAll(content, last);
    } else {
      RunKeepsInv(content, urls, run, |run| - 1);
      NothingToSend(content, urls, last);
    }
  }

  lemma OneIsAll(content: string, s: State)
    requires OneWhole(content, s)
    ensures AllWhole(content, s)
  {
  }

  lemma NothingToSend(content: string, urls: nat, s: State)
    requires Inv(content, urls, s) && (urls == 0 || content == "")
    ensures AllWhole(content, s)
  {
  }

  /** Two requests are built, then the first attempt of one reads the body before that of the other. */
  lemma SecondUrlSendsNothing(content: string, urls: nat) returns (run: seq<State>)
    requires urls >= 2 && content != ""
    ensures DrainingRun(content, urls, run) && !AllWhole(content, run[|run| - 1])
  {
    var s1, s2 := TwoBuilt(content, urls);
    var s3, s4 := TwoAttempts(content, s2);
    run := FreshRun(content, urls);
    run := RunGoesOn(content, urls, run, s1, 0);
    run := RunGoesOn(content, urls, run, s2, 1);
    run := RunGoesOn(content, urls, run, s3, 0);
    run := RunGoesOn(content, urls, run, s4, 1);
  }

  lemma FreshRun(content: string, urls: nat) returns (run: seq<State>)
    ensures DrainingRun(content, urls, run) && run[|run| - 1] == Init(content, urls)
  {
    run := [Init(content, urls)];
  }

  lemma RunGoesOn(content: string, urls: nat, run: seq<State>, s: State, i: nat) returns (longer: seq<State>)
    requires DrainingRun(content, urls, run)
    requires Step(run[|run| - 1], s, i) && Drains(run[|run| - 1], s)
    ensures DrainingRun(content, urls, longer) && longer[|longer| - 1] == s
  {
    longer := run + [s];
    forall k | 0 < k < |longer| ensures Next(longer[k - 1], longer[k]) && Drains(longer[k - 1], longer[k]) {
      if k < |run| {
        assert longer[k] == run[k] && longer[k - 1] == run[k - 1];
      }
    }
  }

  lemma TwoBuilt(content: string, urls: nat) returns (s1: State, s2: State)
    requires urls >= 2
    ensures Step(Init(content, urls), s1, 0) && Step(s1, s2, 1)
    ensures Drains(Init(content, urls), s1) && Drains(s1, s2)
    ensures |s2.requests| == urls && s2.requests[0] == s2.requests[1] == Built(content)
    ensures s2.left == content && s2.portions == []
  {
    var s0 := Init(content, urls);
    s1 := s0.(requests := s0.requests[0 := Built(content)]);
    s2 := s1.(requests := s1.requests[1 := Built(content)]);
    assert Build(s0, s1, 0) && Build(s1, s2, 1);
  }

  lemma TwoAttempts(content: string, s2: State) returns (s3: State, s4: State)
    requires |s2.requests| >= 2 && s2.requests[0] == s2.requests[1] == Built(content)
    requires s2.left == content != "" && s2.portions == []
    ensures Step(s2, s3, 0) && Step(s3, s4, 1) && Drains(s2, s3) && Drains(s3, s4)
    ensures !AllWhole(content, s4)
  {
    s3 := State("", s2.requests[0 := Attempted(content, content, 0)], [content]);
    s4 := State("", s3.requests[1 := Attempted(content, "", 0)], [content] + [""]);
    assert content[..|content|] == content && content[|content|..] == "" && [] + [content] == [content];
    assert FirstAttempt(s2, s3, 0, |content|);
    assert FirstAttempt(s3, s4, 1, 0);
    assert Sent(s4.requests[1])[0] == "";
    assert !Whole(content, s4.requests[1]);
  }
}
