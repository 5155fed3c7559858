/** httpDo of core/resty/resty.go: the attempts for one request, which response bodies are closed, and
    what each attempt sends. */
module HttpRetry {
  import opened Support

  /** client.Do's answer; a response always carries a body. */
  datatype Answer = NoResponse(failure: string) | Response(statusCode: int, body: string, err: Option<string>)

  datatype Method = GET | POST | PUT | DELETE

  datatype Result = Result(answer: Answer, body: Option<string>, err: Option<string>)

  /** The body of a request. The reader behind it is shared by all requests of a Do call: `snapshot` is
      what it held when this request was built, which GetBody copies, and `left` what it holds when the
      first attempt starts. */
  datatype RequestBody = RequestBody(snapshot: string, left: string)

  /** The request was answered with 200, 201, 202 or 204. */
  ghost predicate Done(a: Answer) {
    match a
    case NoResponse(_) => false
    case Response(code, _, _) => code == 200 || code == 201 || code == 202 || code == 204
  }

  predicate Succeeds(a: Answer) {
    a.Response? && a.statusCode in {STATUS_OK, STATUS_CREATED, STATUS_ACCEPTED, STATUS_NO_CONTENT}
  }

  predicate Resends(m: Method, body: Option<RequestBody>) {
    (m == POST || m == PUT) && body.Some?
  }

  function ErrOf(a: Answer): Option<string> {
    if a.NoResponse? then Some(a.failure) else a.err
  }

  /** What the attempts leave behind. `closed` lists, in order, the attempts whose response body was
      closed before the last response was read; `sent` holds what the request body of each attempt had to
      offer when the attempt started. */
  datatype Trace = Trace(attempts: nat, closed: seq<nat>, sent: seq<string>)

  /** How often a body is closed: once for every discarded response, never for the last one. */
  ghost predicate ClosesDiscarded(answers: seq<Answer>, t: Trace)
    requires 1 <= t.attempts <= |answers|
  {
    forall k: nat :: multiset(t.closed)[k] == if 1 <= k < t.attempts && answers[k - 1].Response? then 1 else 0
  }

  /** The first attempt sends what is left in the shared reader, every further one the whole snapshot. */
  ghost predicate SendsCopies(body: RequestBody, t: Trace) {
    |t.sent| == t.attempts
    && forall k :: 0 <= k < t.attempts ==> t.sent[k] == if k == 0 then body.left else body.snapshot
  }

  /** The loop over attempts with retry >= 1. */
  method Attempt(retry: int, m: Method, body: Option<RequestBody>, answers: seq<Answer>) returns (t: Trace)
    requires 1 <= retry <= |answers|
    ensures 1 <= t.attempts <= retry
    ensures forall k :: 0 <= k < t.attempts - 1 ==> !Done(answers[k])
    ensures t.attempts < retry ==> Done(answers[t.attempts - 1])
    ensures ClosesDiscarded(answers, t)
    ensures (m == POST || m == PUT) && body.Some? ==> SendsCopies(body.value, t)
  {
    var i: nat, closed: seq<nat>, sent: seq<string> := 1, [], [];
    var requestBody := if body.Some? then body.value.left else "";
    while true
      invariant 1 <= i <= retry
      invariant |sent| == i - 1
      invariant forall k :: 0 <= k < i - 1 ==> !Done(answers[k])
      invariant forall k: nat :: multiset(closed)[k] == if 1 <= k < i && answers[k - 1].Response? then 1 else 0
      invariant Resends(m, body) ==> requestBody == if i == 1 then body.value.left else body.value.snapshot
      invariant Resends(m, body) ==>
                  forall k :: 0 <= k < i - 1 ==> sent[k] == if k == 0 then body.value.left else body.value.snapshot
      decreases retry - i
    {
      var bodyCopy := if Resends(m, body) then body.value.snapshot else "";
      var answer := answers[i - 1];
      sent := sent + [requestBody];
      requestBody := "";
      if Succeeds(answer) {
        break;
      }
      // the body of the last attempt is left open for reading
      if answer.Response? && i < retry {
        closed := closed + [i];
      }
      if i == retry {
        break;
      }
      if Resends(m, body) {
        requestBody := bodyCopy;
      }
      i := i + 1;
    }
    t := Trace(i, closed, sent);
  }

  /** httpDo: without retries there is one attempt; then the body of the last response is read, and
      closed unless reading fails. */
  method HttpDo(retry: int, m: Method, body: Option<RequestBody>, answers: seq<Answer>, readErr: Option<string>)
    returns (r: Result, t: Trace, lastClosed: bool)
    requires |answers| >= 1 && |answers| >= retry
    ensures 1 <= t.attempts <= |answers|
    ensures retry <= 0 ==> t.attempts == 1
    ensures retry > 0 ==> t.attempts <= retry && (t.attempts == retry || Done(answers[t.attempts - 1]))
    ensures forall k :: 0 <= k < t.attempts - 1 ==> !Done(answers[k])
    ensures ClosesDiscarded(answers, t) && t.attempts !in t.closed
    ensures r.answer == answers[t.attempts - 1]
    ensures r.body == if r.answer.Response? && readErr.None? then Some(r.answer.body) else None
    ensures r.answer.NoResponse? ==> r.err == Some(r.answer.failure)
    ensures r.answer.Response? ==> r.err == if readErr.Some? then readErr else r.answer.err
    ensures lastClosed <==> r.answer.Response? && readErr.None?
    ensures (m == POST || m == PUT) && body.Some? ==> SendsCopies(body.value, t)
  {
    if retry > 0 {
      t := Attempt(retry, m, body, answers);
    } else {
      t := Trace(1, [], [if body.Some? then body.value.left else ""]);
    }
    var answer := answers[t.attempts - 1];
    r := Result(answer, None, ErrOf(answer));
    lastClosed := false;
    if answer.Response? {
      if readErr.Some? {
        r := r.(err := readErr);
      } else {
        lastClosed := true;
        r := r.(body := Some(answer.body));
      }
    }
    assert multiset(t.closed)[t.attempts] == 0;
  }
}
