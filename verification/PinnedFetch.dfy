/**
 The JSON fetch with retries over the pinned client.  Whatever the world answers, its trace is the one that
 `Next` describes event by event, and its result is read off the end; what that says of connections,
 permissions and retries is proved of the trace.
 */
module PinnedFetch {
  import opened Wrappers
  import opened Seqs
  import opened PinnedClient

  datatype Fault =
    | NoAttemptsMade
    | UnsupportedRequest
    | CallerAborted
    | TimedOut
    | Transport(code: string)
    | HttpStatus(status: int)
    | InvalidJson
    | Unexpected

  datatype FetchResult =
    | Fetched(status: int, attempts: nat)
    | Failure(status: int, fault: Fault, attempts: nat)
    | SourceAuthorityChanged(attempts: nat)
    | RequestRejected(reason: string, attempts: nat)

  /** A body that was answered with success is read before anything else happens. */
  ghost predicate AnswersAreRead(trace: seq<Event>) {
    forall k :: 0 <= k < |trace| && trace[k].Replied? && Good(trace[k].status) ==>
      k + 1 < |trace| && trace[k + 1].ParsedBody?
  }

  /** The same, for a trace whose last event may be the answer still to be read. */
  ghost predicate EarlierAnswersAreRead(trace: seq<Event>) {
    forall k :: 0 <= k < |trace| - 1 && trace[k].Replied? && Good(trace[k].status) ==> trace[k + 1].ParsedBody?
  }

  /** How a result reads off the end of the trace. */
  ghost predicate Concludes(result: FetchResult, trace: seq<Event>) {
    match result
    case Fetched(status, _) =>
      |trace| >= 2 && trace[|trace| - 2] == Replied(status) && Good(status) && trace[|trace| - 1] == ParsedBody(Parsed)
    case SourceAuthorityChanged(_) => trace != [] && trace[|trace| - 1] == Asked(AuthorityChanged)
    case RequestRejected(reason, _) => trace != [] && trace[|trace| - 1] == Asked(Rejected(reason))
    case Failure(_, _, _) =>
      trace != [] ==>
        && !(trace[|trace| - 1].Asked? && trace[|trace| - 1].verdict != Allowed)
        && trace[|trace| - 1] != ParsedBody(Parsed)
  }

  /** What the fetch is called with, and the world it meets. */
  datatype Call = Call(world: World, request: Request, supportedBody: bool, maxRetries: nat, cap: nat)

  predicate Supported(call: Call) { call.request.verb != OtherVerb && call.supportedBody }

  // ---- Readings of a trace ----

  function BackOffs(trace: seq<Event>): nat {
    if trace == [] then 0 else BackOffs(trace[..|trace| - 1]) + if trace[|trace| - 1].BackedOff? then 1 else 0
  }

  function LatestStatus(trace: seq<Event>): int {
    if trace == [] then 0
    else match trace[|trace| - 1]
      case Replied(status) => status
      case _ => LatestStatus(trace[..|trace| - 1])
  }

  /** An attempt is about to begin. */
  predicate Fresh(trace: seq<Event>) { trace == [] || trace[|trace| - 1].BackedOff? }

  predicate Retryable(status: int) { status == 429 || status >= 500 }

  lemma SnocCounts(trace: seq<Event>, e: Event)
    ensures BackOffs(trace + [e]) == BackOffs(trace) + if e.BackedOff? then 1 else 0
    ensures LatestStatus(trace + [e]) == if e.Replied? then e.status else LatestStatus(trace)
  {
    assert (trace + [e])[..|trace|] == trace;
  }

  /** New events among which there is neither a pause nor, apart from the last, an answer. */
  lemma {:induction false} RequestCounts(before: seq<Event>, trace: seq<Event>)
    requires before <= trace && AnswersAtEnd(before, trace)
    requires forall k :: |before| <= k < |trace| ==> !trace[k].BackedOff?
    ensures BackOffs(trace) == BackOffs(before)
    ensures LatestStatus(trace) ==
              if |trace| > |before| && trace[|trace| - 1].Replied? then trace[|trace| - 1].status
              else LatestStatus(before)
    decreases |trace|
  {
    if |trace| > |before| {
      var front := trace[..|trace| - 1];
      assert trace == front + [trace[|trace| - 1]];
      RequestCounts(before, front);
      SnocCounts(front, trace[|trace| - 1]);
    } else {
      assert trace == before;
    }
  }

  // ---- What happens next, and what the fetch comes to ----

  datatype Step = Done(result: FetchResult) | Again(status: int, fault: Fault)

  /** What the request that ended with the trace came to. */
  function RequestResult(call: Call, trace: seq<Event>): PinnedResult {
    if !Fresh(trace) then ResultOf(call.world, trace)
    else
      match RejectedBeforeDns(call.request)
      case Some(reason) => NetworkError(reason, false, 0)
      case None =>
        match ResolutionOf(call.world, call.request.url.value.host, |trace|)
        case Addresses(_) => NetworkError("CONNECTION_FAILED", true, 0)
        case resolution => Unresolved(resolution)
  }

  /** What the parse of a body comes to; one that throws anything but a syntax error is retried. */
  function ReadOf(world: World, parse: ParseReply, status: int, attempts: nat, at: nat): Step {
    match parse
    case Parsed => Done(Fetched(status, attempts))
    case NotJson => Done(Failure(status, InvalidJson, attempts))
    case ParseThrew =>
      Again(status,
            if world.callerAborted(at) then CallerAborted else if world.timedOut(at) then TimedOut else Unexpected)
  }

  /** What a request's result comes to; `status` is the latest one answered. */
  function ClassOf(world: World, result: PinnedResult, status: int, attempts: nat, at: nat): Step {
    match result
    case AuthorityLost(_) => Done(SourceAuthorityChanged(attempts))
    case Refused(reason, _) => Done(RequestRejected(reason, attempts))
    case NetworkError(code, retryable, _) =>
      if world.callerAborted(at) then Done(Failure(status, CallerAborted, attempts))
      else if code == "ABORT_ERR" then Again(status, TimedOut)
      else if retryable then Again(status, Transport(code))
      else Done(Failure(status, Transport(code), attempts))
    case Answered(_, _) =>
      if Retryable(status) then Again(status, HttpStatus(status))
      else Done(Failure(status, HttpStatus(status), attempts))
  }

  /** The classification of a finished attempt. */
  function StepOf(call: Call, trace: seq<Event>): Step {
    var n, status, at := |ConnectedTo(trace)|, LatestStatus(trace), |trace|;
    if trace != [] && trace[|trace| - 1].ParsedBody? then ReadOf(call.world, trace[|trace| - 1].parse, status, n, at)
    else ClassOf(call.world, RequestResult(call, trace), status, n, at)
  }

  /** After a finished attempt: a pause, if another attempt is due. */
  function PauseNext(call: Call, trace: seq<Event>): Option<Event> {
    if StepOf(call, trace).Again? && !call.world.callerAborted(|trace|) && BackOffs(trace) + 1 < call.maxRetries
    then Some(BackedOff) else None
  }

  /** The first event of an attempt. */
  function FirstNext(call: Call, trace: seq<Event>): Option<Event> {
    if call.world.callerAborted(|trace|) || RejectedBeforeDns(call.request).Some? then PauseNext(call, trace)
    else
      match ResolutionOf(call.world, call.request.url.value.host, |trace|)
      case Addresses(addresses) => Some(Resolved(addresses))
      case _ => PauseNext(call, trace)
  }

  function Next(call: Call, trace: seq<Event>): Option<Event> {
    if !Supported(call) || call.maxRetries == 0 then None
    else if Fresh(trace) then FirstNext(call, trace)
    else
      match NextInRequest(call.world, call.request, call.cap, trace)
      case Some(e) => Some(e)
      case None =>
        match trace[|trace| - 1]
        case Replied(status) =>
          if Good(status) then Some(ParsedBody(call.world.parse(|trace|)))
          else PauseNext(call, trace)
        case _ => PauseNext(call, trace)
  }

  predicate IsNextOf(call: Call, trace: seq<Event>, k: nat)
    requires k < |trace|
  {
    Next(call, trace[..k]) == Some(trace[k])
  }

  /** Every event is the next one. */
  ghost predicate Follows(call: Call, trace: seq<Event>) { forall k :: 0 <= k < |trace| ==> IsNextOf(call, trace, k) }

  /** The whole trace of the fetch: nothing comes next. */
  ghost predicate Ends(call: Call, trace: seq<Event>) { Follows(call, trace) && Next(call, trace).None? }

  /** What the fetch returns at the end of its trace. */
  function Final(call: Call, trace: seq<Event>): FetchResult {
    if !Supported(call) then Failure(0, UnsupportedRequest, 0)
    else if call.maxRetries == 0 then Failure(0, NoAttemptsMade, 0)
    else
      match StepOf(call, trace)
      case Done(result) => result
      case Again(status, fault) =>
        Failure(status, if call.world.callerAborted(|trace|) then CallerAborted else fault, |ConnectedTo(trace)|)
  }

  lemma FollowsSnoc(call: Call, trace: seq<Event>, e: Event)
    requires Follows(call, trace) && Next(call, trace) == Some(e)
    ensures Follows(call, trace + [e])
  {
    var next := trace + [e];
    forall k | 0 <= k < |next| ensures IsNextOf(call, next, k) {
      assert next[..k] == trace[..k];
      if k < |trace| { assert IsNextOf(call, trace, k); } else { assert next[..k] == trace; }
    }
  }

  /** Only one trace follows, and so the fetch has one result. */
  lemma EndIsUnique(call: Call, a: seq<Event>, b: seq<Event>)
    requires Ends(call, a) && Ends(call, b)
    ensures a == b && Final(call, a) == Final(call, b)
  {
    SamePrefix(call, a, b, Min(|a|, |b|));
    assert a[..|a|] == a && b[..|b|] == b;
    if |a| < |b| { GoesOn(call, a, b); }
    if |b| < |a| { GoesOn(call, b, a); }
  }

  lemma GoesOn(call: Call, a: seq<Event>, b: seq<Event>)
    requires Follows(call, b) && |a| < |b| && a == b[..|a|]
    ensures Next(call, a).Some?
  {
    assert IsNextOf(call, b, |a|);
  }

  lemma {:induction false} SamePrefix(call: Call, a: seq<Event>, b: seq<Event>, n: nat)
    requires Follows(call, a) && Follows(call, b) && n <= |a| && n <= |b|
    ensures a[..n] == b[..n]
  {
    if n > 0 {
      SamePrefix(call, a, b, n - 1);
      assert IsNextOf(call, a, n - 1) && IsNextOf(call, b, n - 1);
      assert a[..n] == a[..n - 1] + [a[n - 1]] && b[..n] == b[..n - 1] + [b[n - 1]];
    }
  }

  // ---- One attempt ----

  /** What an attempt leaves: more attempts counted as connections, and the discipline kept. */
  ghost predicate Kept(trace: seq<Event>, attempts: nat) {
    Disciplined(trace) && |ConnectedTo(trace)| == attempts
  }

  ghost predicate StepReads(step: Step, trace: seq<Event>, attempts: nat) {
    match step
    case Done(result) => StopsAtEnd(trace) && Concludes(result, trace) && result.attempts == attempts
    case Again(_, _) => NoStop(trace)
  }

  lemma AnswersStayRead(before: seq<Event>, trace: seq<Event>)
    requires before <= trace && AnswersAreRead(before) && AnswersAtEnd(before, trace)
    ensures EarlierAnswersAreRead(trace)
    ensures |trace| == |before| || !(trace[|trace| - 1].Replied? && Good(trace[|trace| - 1].status)) ==>
              AnswersAreRead(trace)
  {
    assert forall k :: 0 <= k < |before| ==> before[k] == trace[k];
  }

  /** A request run on a fresh trace is what comes next. */
  lemma RequestFollows(call: Call, before: seq<Event>, result: PinnedResult, trace: seq<Event>)
    requires Supported(call) && call.maxRetries > 0 && Follows(call, before) && Fresh(before)
    requires !call.world.callerAborted(|before|)
    requires RunsFrom(call.world, call.request, call.cap, before, result, trace)
    ensures before <= trace && Follows(call, trace) && result == RequestResult(call, trace)
    ensures Fresh(trace) <==> trace == before
    ensures !Fresh(trace) ==> NextInRequest(call.world, call.request, call.cap, trace).None?
    ensures Fresh(trace) ==> Next(call, trace) == PauseNext(call, trace)
    ensures forall k :: |before| <= k < |trace| ==> !trace[k].BackedOff?
    ensures trace == [] || !trace[|trace| - 1].ParsedBody?
  {
    if RejectedBeforeDns(call.request).None? {
      match ResolutionOf(call.world, call.request.url.value.host, |before|)
      case Addresses(addresses) =>
        FollowsSnoc(call, before, Resolved(addresses));
        ResolvedFollows(call, before, addresses, trace);
      case _ =>
    }
  }

  lemma ResolvedFollows(call: Call, before: seq<Event>, addresses: seq<Address>, trace: seq<Event>)
    requires Supported(call) && call.maxRetries > 0 && Follows(call, before + [Resolved(addresses)])
    requires before + [Resolved(addresses)] <= trace
    requires Continues(call.world, call.request, call.cap, |before| + 1, trace)
    ensures Follows(call, trace) && !Fresh(trace)
    ensures forall k :: |before| <= k < |trace| ==> !trace[k].BackedOff? && !trace[k].ParsedBody?
  {
    var resolved := before + [Resolved(addresses)];
    forall k | 0 <= k < |trace| ensures IsNextOf(call, trace, k) {
      if k < |resolved| {
        assert IsNextOf(call, resolved, k) && trace[..k] == resolved[..k] && trace[k] == resolved[k];
      } else {
        assert IsNext(call.world, call.request, call.cap, trace, k);
        assert trace[..k] != [] && trace[..k][k - 1] == trace[k - 1];
      }
    }
    forall k | |before| <= k < |trace| ensures !trace[k].BackedOff? && !trace[k].ParsedBody? {
      if k == |before| { assert trace[k] == Resolved(addresses); }
      else { assert IsNext(call.world, call.request, call.cap, trace, k); }
    }
  }

  /** What one attempt leaves: every event the next one, and a trace at which only a pause can follow. */
  ghost predicate Attempted(call: Call, before: seq<Event>, step: Step, trace: seq<Event>) {
    && Follows(call, trace) && step == StepOf(call, trace)
    && Next(call, trace) == PauseNext(call, trace)
    && BackOffs(trace) == BackOffs(before)
  }

  lemma ReadStep(call: Call, trace: seq<Event>, parse: ParseReply)
    requires trace != [] && trace[|trace| - 1] == ParsedBody(parse)
    ensures StepOf(call, trace) == ReadOf(call.world, parse, LatestStatus(trace), |ConnectedTo(trace)|, |trace|)
  {}

  lemma ReadingIsAnAttempt(call: Call, before: seq<Event>, status: int, attempts: nat, parse: ParseReply,
                           trace: seq<Event>)
    requires Supported(call) && call.maxRetries > 0 && Follows(call, before) && |ConnectedTo(before)| == attempts
    requires before != [] && before[|before| - 1] == Replied(status) && Good(status)
    requires parse == call.world.parse(|before|) && trace == before + [ParsedBody(parse)]
    ensures Attempted(call, before, ReadOf(call.world, parse, status, attempts, |trace|), trace)
  {
    var e := ParsedBody(parse);
    SnocCounts(before, e);
    SnocReads(before, e);
    FollowsSnoc(call, before, e);
    ReadStep(call, before + [e], e.parse);
  }

  lemma ReadingKeeps(call: Call, before: seq<Event>, status: int, attempts: nat, parse: ParseReply, trace: seq<Event>)
    requires Truthful(call.world, call.request, before)
    requires Kept(before, attempts) && NoStop(before) && EarlierAnswersAreRead(before)
    requires before != [] && before[|before| - 1] == Replied(status) && Good(status)
    requires parse == call.world.parse(|before|) && trace == before + [ParsedBody(parse)]
    ensures Truthful(call.world, call.request, trace) && Kept(trace, attempts) && AnswersAreRead(trace)
    ensures StepReads(ReadOf(call.world, parse, status, attempts, |trace|), trace, attempts)
  {
    Snoc(before, ParsedBody(parse));
    SnocTruthful(call.world, call.request, before, ParsedBody(parse));
  }

  /** A body answered with success is parsed. */
  method ReadAnswer(call: Call, before: seq<Event>, status: int, attempts: nat) returns (step: Step, trace: seq<Event>)
    requires Supported(call) && call.maxRetries > 0 && Follows(call, before) &&
             Truthful(call.world, call.request, before)
    requires Kept(before, attempts) && NoStop(before) && EarlierAnswersAreRead(before)
    requires before != [] && before[|before| - 1] == Replied(status) && Good(status)
    ensures Attempted(call, before, step, trace) && Truthful(call.world, call.request, trace)
    ensures Kept(trace, attempts) && StepReads(step, trace, attempts) && AnswersAreRead(trace)
  {
    var parse := call.world.parse(|before|);
    trace := before + [ParsedBody(parse)];
    ReadingIsAnAttempt(call, before, status, attempts, parse, trace);
    ReadingKeeps(call, before, status, attempts, parse, trace);
    step := ReadOf(call.world, parse, status, attempts, |trace|);
  }

  /** What a finished request leaves when its answer, if any, is not a success. */
  lemma RequestIsAnAttempt(call: Call, before: seq<Event>, result: PinnedResult, trace: seq<Event>)
    requires Supported(call) && call.maxRetries > 0 && Follows(call, before) && Fresh(before)
    requires !call.world.callerAborted(|before|)
    requires RunsFrom(call.world, call.request, call.cap, before, result, trace)
    requires AnswersAtEnd(before, trace) && Reads(result, trace) && (result.NetworkError? ==> NoAnswers(before, trace))
    ensures Follows(call, trace)
    ensures var status := if result.Answered? then result.status else LatestStatus(before);
            && LatestStatus(trace) == status
            && (!(result.Answered? && Good(result.status)) ==>
                  Attempted(call, before, ClassOf(call.world, result, status, |ConnectedTo(trace)|, |trace|), trace))
    ensures BackOffs(trace) == BackOffs(before)
    ensures trace == [] || !trace[|trace| - 1].ParsedBody?
  {
    RequestFollows(call, before, result, trace);
    RequestCounts(before, trace);
  }

  lemma SocketsCount(before: seq<Event>, attempts: nat, trace: seq<Event>, sockets: nat, cap: nat)
    requires Kept(before, attempts) && Grows(before, trace, sockets, cap) && Disciplined(trace)
    ensures Kept(trace, attempts + sockets) && sockets <= cap
  {}

  /** A result that ends the fetch is read off the trace; after any other the trace has met no stop. */
  lemma RequestReads(world: World, result: PinnedResult, status: int, attempts: nat, trace: seq<Event>)
    requires Reads(result, trace) && StopsAtEnd(trace) && !(result.Answered? && Good(result.status))
    requires result.Answered? ==> status == result.status
    requires result.NetworkError? ==> trace == [] || !trace[|trace| - 1].ParsedBody?
    ensures StepReads(ClassOf(world, result, status, attempts, |trace|), trace, attempts)
  {}

  /** One attempt, from the request to its classification. */
  method OneAttempt(call: Call, before: seq<Event>, lastStatus: int, attempts: nat)
    returns (step: Step, trace: seq<Event>, counted: nat)
    requires Supported(call) && call.maxRetries > 0 && Follows(call, before) &&
             Truthful(call.world, call.request, before)
    requires Fresh(before) && !call.world.callerAborted(|before|) && lastStatus == LatestStatus(before)
    requires Kept(before, attempts) && NoStop(before) && AnswersAreRead(before)
    ensures Attempted(call, before, step, trace) && Truthful(call.world, call.request, trace)
    ensures Kept(trace, counted) && attempts <= counted <= attempts + call.cap
    ensures StepReads(step, trace, counted) && AnswersAreRead(trace)
  {
    var result: PinnedResult;
    result, trace := PinnedRequest(call.world, call.request, call.cap, before);
    counted := attempts + result.socketAttempts;
    AnswersStayRead(before, trace);
    RequestIsAnAttempt(call, before, result, trace);
    SocketsCount(before, attempts, trace, result.socketAttempts, call.cap);
    if result.Answered? && Good(result.status) {
      step, trace := ReadAnswer(call, trace, result.status, counted);
      return;
    }
    step := Classify(call.world, result, lastStatus, counted, |trace|);
    RequestReads(call.world, result, if result.Answered? then result.status else lastStatus, counted, trace);
  }

  method Classify(world: World, result: PinnedResult, lastStatus: int, counted: nat, at: nat) returns (step: Step)
    ensures step == ClassOf(world, result, if result.Answered? then result.status else lastStatus, counted, at)
  {
    match result
    case AuthorityLost(_) => step := Done(SourceAuthorityChanged(counted));
    case Refused(reason, _) => step := Done(RequestRejected(reason, counted));
    case NetworkError(code, retryable, _) =>
      var aborted := world.callerAborted(at);
      var fault := if code == "ABORT_ERR" then if aborted then CallerAborted else TimedOut else Transport(code);
      if aborted { step := Done(Failure(lastStatus, CallerAborted, counted)); }
      else if !retryable && code != "ABORT_ERR" { step := Done(Failure(lastStatus, fault, counted)); }
      else { step := Again(lastStatus, fault); }
    case Answered(status, _) =>
      if status != 429 && status < 500 {
        step := Done(Failure(status, HttpStatus(status), counted));
      } else {
        step := Again(status, HttpStatus(status));
      }
  }

  /** What holds of the trace between attempts. */
  ghost predicate Going(call: Call, trace: seq<Event>, attempts: nat) {
    && Follows(call, trace) && Truthful(call.world, call.request, trace)
    && Kept(trace, attempts) && NoStop(trace) && AnswersAreRead(trace)
  }

  ghost predicate EndsIn(call: Call, trace: seq<Event>, result: FetchResult) {
    Ends(call, trace) && result == Final(call, trace)
  }

  /** The abort that is seen before an attempt. */
  lemma AbortEnds(call: Call, trace: seq<Event>)
    requires Supported(call) && call.maxRetries > 0 && Follows(call, trace)
    requires Fresh(trace) && call.world.callerAborted(|trace|)
    ensures EndsIn(call, trace, Failure(LatestStatus(trace), CallerAborted, |ConnectedTo(trace)|))
  {}

  /** After an attempt: the end, or a pause. */
  lemma AttemptEnds(call: Call, before: seq<Event>, step: Step, trace: seq<Event>, attempts: nat)
    requires Supported(call) && call.maxRetries > 0 && Attempted(call, before, step, trace)
    requires |ConnectedTo(trace)| == attempts
    ensures step.Done? ==> EndsIn(call, trace, step.result)
    ensures step.Again? && call.world.callerAborted(|trace|) ==>
              EndsIn(call, trace, Failure(step.status, CallerAborted, attempts))
    ensures step.Again? ==> step.status == LatestStatus(trace)
    ensures step.Again? && !call.world.callerAborted(|trace|) ==>
              if BackOffs(before) + 1 < call.maxRetries then Next(call, trace) == Some(BackedOff)
              else EndsIn(call, trace, Failure(step.status, step.fault, attempts))
  {}

  /** Over every world: the trace is the one that follows and the result the one it ends with; every event says
      what the world answered; the discipline of the trace is kept, nothing happens after a stopping event, the
      attempts reported are the connections made, and there are at most `maxRetries` times the address cap of them. */
  method FetchJSONWithRetry(call: Call) returns (result: FetchResult, trace: seq<Event>)
    ensures Ends(call, trace) && result == Final(call, trace)
    ensures Truthful(call.world, call.request, trace)
    ensures Disciplined(trace) && StopsAtEnd(trace) && AnswersAreRead(trace)
    ensures result.attempts == |ConnectedTo(trace)| <= call.maxRetries * call.cap
    ensures Concludes(result, trace)
    ensures !Supported(call) ==> trace == [] && result == Failure(0, UnsupportedRequest, 0)
    ensures Supported(call) && call.maxRetries == 0 ==> trace == [] && result == Failure(0, NoAttemptsMade, 0)
  {
    trace := [];
    if call.request.verb == OtherVerb || !call.supportedBody { return Failure(0, UnsupportedRequest, 0), []; }
    var lastStatus, lastFault, physicalAttempts, attempt := 0, NoAttemptsMade, 0, 0;
    while attempt < call.maxRetries
      invariant 0 <= attempt <= call.maxRetries
      invariant Going(call, trace, physicalAttempts) && physicalAttempts <= attempt * call.cap
      invariant attempt == 0 ==> lastStatus == 0 && lastFault == NoAttemptsMade && trace == []
      invariant attempt < call.maxRetries ==>
                  Fresh(trace) && BackOffs(trace) == attempt && lastStatus == LatestStatus(trace)
      invariant 0 < attempt == call.maxRetries ==> EndsIn(call, trace, Failure(lastStatus, lastFault, physicalAttempts))
    {
      Within(attempt, call.maxRetries, call.cap);
      if call.world.callerAborted(|trace|) {
        AbortEnds(call, trace);
        return Failure(lastStatus, CallerAborted, physicalAttempts), trace;
      }
      ghost var before := trace;
      var step: Step;
      step, trace, physicalAttempts := OneAttempt(call, trace, lastStatus, physicalAttempts);
      AttemptEnds(call, before, step, trace, physicalAttempts);
      match step {
        case Done(r) => return r, trace;
        case Again(status, fault) => lastStatus, lastFault := status, fault;
      }
      if call.world.callerAborted(|trace|) {
        return Failure(lastStatus, CallerAborted, physicalAttempts), trace;
      }
      if attempt < call.maxRetries - 1 {
        Paused(call, trace, physicalAttempts);
        trace := trace + [BackedOff];
      }
      attempt := attempt + 1;
    }
    return Failure(lastStatus, lastFault, physicalAttempts), trace;
  }

  lemma PauseFollows(call: Call, trace: seq<Event>)
    requires Follows(call, trace) && Truthful(call.world, call.request, trace)
    requires Next(call, trace) == Some(BackedOff)
    ensures Follows(call, trace + [BackedOff]) && Truthful(call.world, call.request, trace + [BackedOff])
  {
    SnocTruthful(call.world, call.request, trace, BackedOff);
    FollowsSnoc(call, trace, BackedOff);
  }

  lemma PauseIsDisciplined(trace: seq<Event>, attempts: nat)
    requires Kept(trace, attempts) && NoStop(trace) && AnswersAreRead(trace)
    ensures var next := trace + [BackedOff]; Kept(next, attempts) && NoStop(next) && AnswersAreRead(next)
  {
    Snoc(trace, BackedOff);
  }

  /** A pause keeps everything and starts the next attempt. */
  lemma Paused(call: Call, trace: seq<Event>, attempts: nat)
    requires Going(call, trace, attempts) && Next(call, trace) == Some(BackedOff)
    ensures var next := trace + [BackedOff];
            && Going(call, next, attempts) && Fresh(next)
            && BackOffs(next) == BackOffs(trace) + 1 && LatestStatus(next) == LatestStatus(trace)
  {
    PauseFollows(call, trace);
    PauseIsDisciplined(trace, attempts);
    SnocCounts(trace, BackedOff);
  }

  lemma Within(attempt: nat, maxRetries: nat, cap: nat)
    requires attempt < maxRetries
    ensures attempt * cap + cap == (attempt + 1) * cap <= maxRetries * cap
  {
    assert maxRetries * cap == (attempt + 1) * cap + (maxRetries - attempt - 1) * cap;
  }

  // ---- What follows for the connections ----

  lemma {:induction false} VettedAt(trace: seq<Event>, address: Address) returns (j: nat)
    requires address in LatestVetted(trace)
    ensures j < |trace| && trace[j].Resolved? && address in trace[j].vetted
  {
    if trace[|trace| - 1].Resolved? { j := |trace| - 1; } else { j := VettedAt(trace[..|trace| - 1], address); }
  }

  /** Behind every connection: a resolution all of whose answers are safe, one of them pinned to the address
      connected to, and a permission of its own, asked for directly before it.  A callback that was given was
      asked, and returned neither false nor a rejection, and did not throw. */
  lemma ConnectionsAreVetted(world: World, request: Request, trace: seq<Event>, k: nat) returns (j: nat, answer: Answer)
    requires Disciplined(trace) && Truthful(world, request, trace) && k < |trace| && trace[k].Connecting?
    ensures k > 0 && trace[k - 1] == Asked(Allowed) && (request.checked ==> world.check(k - 1) == ReturnedOther)
    ensures j < k && request.url.Some? && world.pin(answer) == Some(trace[k].address)
    ensures match request.url.value.host
            case IpLiteral(literal) => answer == literal
            case Name(_) =>
              && !world.callerAborted(j) && !world.timedOut(j)
              && world.resolve(j).Answers? && answer in world.resolve(j).answers
              && forall a :: a in world.resolve(j).answers ==> world.pin(a).Some?
  {
    assert DisciplinedAt(trace, k) && SaysTrue(world, request, trace, k - 1);
    j := VettedAt(trace[..k], trace[k].address);
    assert SaysTrue(world, request, trace, j);
    ResolutionIsVetted(world, request.url.value.host, j);
    var a :| a in AnswersFor(world, request.url.value.host, j) && world.pin(a) == Some(trace[k].address);
    answer := a;
  }

  /** A connection is made only for an admissible request: https, GET without a body or POST, and a usable cap. */
  lemma ConnectionsAreAdmitted(call: Call, trace: seq<Event>, k: nat)
    requires Follows(call, trace) && Disciplined(trace) && k < |trace| && trace[k].Connecting?
    ensures call.supportedBody && call.maxRetries > 0
    ensures call.request.url.Some? && call.request.url.value.https
    ensures call.request.verb == Post || (call.request.verb == Get && call.request.bodyLength == 0)
    ensures 1 <= call.request.maxResponseBytes <= 9007199254740991
  {
    assert DisciplinedAt(trace, k);
    var j := VettedAt(trace[..k], trace[k].address);
    assert IsNextOf(call, trace, j) && trace[j].Resolved?;
    if j > 0 { assert trace[..j][j - 1] == trace[j - 1]; }
  }

  /** The endings that the permission callback and the body decide.  What the last event says of the callback, the
      connection or the parser is what the world answered there. */
  lemma EndingsAreDecided(call: Call, result: FetchResult, trace: seq<Event>)
    requires Concludes(result, trace) && Truthful(call.world, call.request, trace) && AnswersAreRead(trace)
    ensures result.SourceAuthorityChanged? <==>
              && trace != [] && trace[|trace| - 1].Asked? && call.request.checked
              && call.world.check(|trace| - 1) in {ReturnedFalse, CheckThrew}
    ensures result.RequestRejected? <==>
              && trace != [] && trace[|trace| - 1].Asked? && call.request.checked
              && call.world.check(|trace| - 1).ReturnedRejection?
    ensures result.RequestRejected? ==> call.world.check(|trace| - 1) == ReturnedRejection(result.reason)
    ensures result.Fetched? <==>
              trace != [] && trace[|trace| - 1].ParsedBody? && call.world.parse(|trace| - 1) == Parsed
    ensures result.Fetched? ==>
              && |trace| >= 3 && trace[|trace| - 3].Connecting? && 200 <= result.status < 300
              && call.world.connect(|trace| - 3, trace[|trace| - 3].address) == Response(result.status)
  {
    if trace != [] { assert SaysTrue(call.world, call.request, trace, |trace| - 1); }
    if |trace| >= 2 { assert SaysTrue(call.world, call.request, trace, |trace| - 2); }
  }

  // ---- What follows for the retries ----

  /** What a request must be for its host to be resolved at all. */
  predicate Admitted(request: Request) {
    && request.url.Some? && request.url.value.https
    && (request.verb == Post || (request.verb == Get && request.bodyLength == 0))
    && 1 <= request.maxResponseBytes <= 9007199254740991
  }

  /** The attempt that ended with the trace may be retried: no address could be resolved for now, all addresses up
      to the cap failed, the attempt timed out, or the answer or its body asks for another. */
  predicate WorthRetrying(call: Call, trace: seq<Event>) {
    var world, at := call.world, |trace|;
    if Fresh(trace) then
      && Admitted(call.request) && call.request.url.value.host.Name?
      && (|| world.callerAborted(at) || world.timedOut(at)
          || (world.resolve(at).DnsError? && world.resolve(at).code !in {Some("DNS_NON_GLOBAL"), Some("DNS_EMPTY")}))
    else
      match trace[|trace| - 1]
      case Resolved(_) => AllTried(trace, call.cap)
      case Failed(code) =>
        || world.callerAborted(at) || world.timedOut(at)
        || (AllTried(trace, call.cap)
            && code !in {"BODY_TOO_LARGE", "PINNED_HOSTNAME_MISMATCH", "REMOTE_ADDRESS_MISMATCH",
                         "UNSUPPORTED_CONTENT_ENCODING"})
      case Replied(status) => status == 429 || status >= 500
      case ParsedBody(parse) => parse == ParseThrew
      case _ => false
  }

  /** A pause is made only before another attempt that is worth making. */
  lemma PausesAreWorthIt(call: Call, trace: seq<Event>, k: nat)
    requires Follows(call, trace) && k < |trace| && trace[k] == BackedOff
    ensures WorthRetrying(call, trace[..k]) && !call.world.callerAborted(k) &&
            BackOffs(trace[..k]) + 1 < call.maxRetries
  {
    assert IsNextOf(call, trace, k);
  }

  lemma {:induction false} BackOffsAreBounded(call: Call, trace: seq<Event>)
    requires Follows(call, trace) && call.maxRetries > 0
    ensures BackOffs(trace) < call.maxRetries
    decreases |trace|
  {
    if trace != [] {
      var n := |trace| - 1;
      forall k | 0 <= k < n ensures IsNextOf(call, trace[..n], k) {
        assert IsNextOf(call, trace, k) && trace[..n][..k] == trace[..k];
      }
      BackOffsAreBounded(call, trace[..n]);
      if trace[n] == BackedOff { PausesAreWorthIt(call, trace, n); }
    }
  }

  /** A code that is not retried. */
  predicate GivenUp(request: Request, code: string) {
    || (!Admitted(request) && code in {"URL_REJECTED", "REQUEST_REJECTED", "INVALID_BODY_CAP"})
    || code in {"DNS_NON_GLOBAL", "DNS_EMPTY"}
    || code in {"BODY_TOO_LARGE", "PINNED_HOSTNAME_MISMATCH", "REMOTE_ADDRESS_MISMATCH", "UNSUPPORTED_CONTENT_ENCODING"}
  }

  /** What comes of an attempt at whose end only a pause can follow. */
  ghost predicate StepIsRight(call: Call, trace: seq<Event>) {
    match StepOf(call, trace)
    case Again(_, _) => WorthRetrying(call, trace)
    case Done(Failure(_, fault, _)) =>
      || call.world.callerAborted(|trace|)
      || (trace != [] && Stopping(trace[|trace| - 1]))
      || (fault.Transport? && GivenUp(call.request, fault.code))
    case _ => true
  }

  lemma FreshStep(call: Call, trace: seq<Event>)
    requires Fresh(trace) && !call.world.callerAborted(|trace|) && Next(call, trace).None?
    requires Supported(call) && call.maxRetries > 0
    ensures StepIsRight(call, trace) && PauseNext(call, trace).None?
  {
    match RejectedBeforeDns(call.request)
    case Some(_) =>
    case None =>
      var resolution := ResolutionOf(call.world, call.request.url.value.host, |trace|);
      assert !resolution.Addresses? && RequestResult(call, trace) == Unresolved(resolution);
  }

  lemma LaterStep(call: Call, trace: seq<Event>)
    requires !Fresh(trace) && !call.world.callerAborted(|trace|) && Next(call, trace).None?
    requires Supported(call) && call.maxRetries > 0
    ensures StepIsRight(call, trace) && PauseNext(call, trace).None?
  {
    assert NextInRequest(call.world, call.request, call.cap, trace).None?;
    match trace[|trace| - 1]
    case Resolved(_) => assert AllTried(trace, call.cap);
    case Failed(code) => FailedStep(call, trace, code);
    case ParsedBody(parse) => ReadStep(call, trace, parse);
    case Replied(status) => assert RequestResult(call, trace).Answered? && LatestStatus(trace) == status;
    case _ =>
  }

  lemma FailedStep(call: Call, trace: seq<Event>, code: string)
    requires trace != [] && trace[|trace| - 1] == Failed(code) && !call.world.callerAborted(|trace|)
    requires NextInRequest(call.world, call.request, call.cap, trace).None?
    ensures StepIsRight(call, trace)
  {
    if call.world.SignalAborted(|trace|) {
      assert RequestResult(call, trace) == NetworkError("ABORT_ERR", false, SinceResolved(trace));
    } else {
      assert RequestResult(call, trace) == NetworkError(code, code !in TERMINAL_CODES, SinceResolved(trace));
    }
  }

  /** It fails only on an abort by the caller, on an answer or a code that is not to be retried, or after the
      last of its attempts, each of which was worth retrying. */
  lemma GivesUpOnlyWhen(call: Call, trace: seq<Event>)
    requires Supported(call) && call.maxRetries > 0 && Ends(call, trace) && Final(call, trace).Failure?
    ensures
      || call.world.callerAborted(|trace|)
      || (trace != [] && Stopping(trace[|trace| - 1]))
      || (Final(call, trace).fault.Transport? && GivenUp(call.request, Final(call, trace).fault.code))
      || (BackOffs(trace) + 1 == call.maxRetries && WorthRetrying(call, trace))
  {
    BackOffsAreBounded(call, trace);
    if !call.world.callerAborted(|trace|) {
      if Fresh(trace) { FreshStep(call, trace); } else { LaterStep(call, trace); }
    }
  }

  // ---- What a failure reports ----

  /** The fault of a request that connected nowhere. */
  predicate FreshCause(call: Call, trace: seq<Event>, fault: Fault) {
    var request, world, at := call.request, call.world, |trace|;
    if request.url.None? || !request.url.value.https then fault == Transport("URL_REJECTED")
    else if request.verb == Get && request.bodyLength > 0 then fault == Transport("REQUEST_REJECTED")
    else if !Admitted(request) then fault == Transport("INVALID_BODY_CAP")
    else if request.url.value.host.IpLiteral? then fault == Transport("DNS_NON_GLOBAL")
    else if world.timedOut(at) then fault == TimedOut
    else
      match world.resolve(at)
      case Answers(answers) => fault == Transport(if answers == [] then "DNS_EMPTY" else "DNS_NON_GLOBAL")
      case DnsError(None) => fault == Transport("DNS_UNVERIFIABLE")
      case DnsError(Some(code)) =>
        fault == if code == "ABORT_ERR" then TimedOut
                 else Transport(if code == "ENOTFOUND" || code == "ENODATA" then "ENOTFOUND" else code)
  }

  /** The fault that the world's answer at the end of the trace calls for. */
  predicate Cause(call: Call, trace: seq<Event>, fault: Fault) {
    var world, at := call.world, |trace|;
    if Fresh(trace) then FreshCause(call, trace, fault)
    else
      match trace[|trace| - 1]
      case Resolved(_) => fault == Transport("CONNECTION_FAILED")
      case Failed(_) =>
        && |trace| >= 2 && trace[|trace| - 2].Connecting?
        && var reply := world.connect(|trace| - 2, trace[|trace| - 2].address);
        && reply.ConnectError?
        && fault == (if world.timedOut(at) || reply.code == Some("ABORT_ERR") then TimedOut
                     else Transport(if reply.code.Some? then reply.code.value else "CONNECTION_FAILED"))
      case Replied(status) => fault == HttpStatus(status)
      case ParsedBody(parse) =>
        fault == if parse == NotJson then InvalidJson else if world.timedOut(at) then TimedOut else Unexpected
      case _ => false
  }

  lemma FreshFault(call: Call, trace: seq<Event>)
    requires Supported(call) && call.maxRetries > 0 && Fresh(trace) && !call.world.callerAborted(|trace|)
    requires Next(call, trace).None? && Final(call, trace).Failure?
    ensures FreshCause(call, trace, Final(call, trace).fault)
  {
    match RejectedBeforeDns(call.request)
    case Some(_) =>
    case None =>
      var resolution := ResolutionOf(call.world, call.request.url.value.host, |trace|);
      assert !resolution.Addresses? && RequestResult(call, trace) == Unresolved(resolution);
  }

  lemma FailedFault(call: Call, trace: seq<Event>)
    requires Supported(call) && call.maxRetries > 0 && trace != [] && trace[|trace| - 1].Failed?
    requires SaysTrue(call.world, call.request, trace, |trace| - 1) && !call.world.callerAborted(|trace|)
    requires Final(call, trace).Failure?
    ensures Cause(call, trace, Final(call, trace).fault)
  {
    var code := trace[|trace| - 1].code;
    assert RequestResult(call, trace) ==
           NetworkError(if call.world.SignalAborted(|trace|) then "ABORT_ERR" else code,
                        !Terminal(call.world, code, |trace|), SinceResolved(trace));
  }

  /** A fetch that fails, the caller not having aborted it, reports what the world answered last: the status, the
      error code of the connection or of DNS, the timeout, or the body. */
  lemma FailureNamesItsCause(call: Call, trace: seq<Event>)
    requires Supported(call) && call.maxRetries > 0 && Ends(call, trace) && Final(call, trace).Failure?
    requires Truthful(call.world, call.request, trace) && !call.world.callerAborted(|trace|)
    ensures Cause(call, trace, Final(call, trace).fault)
  {
    if Fresh(trace) {
      FreshFault(call, trace);
    } else {
      assert SaysTrue(call.world, call.request, trace, |trace| - 1);
      match trace[|trace| - 1]
      case Failed(_) => FailedFault(call, trace);
      case Replied(status) => assert RequestResult(call, trace).Answered? && LatestStatus(trace) == status;
      case _ =>
    }
  }

  /** No connection follows an authority change, a rejection, or an answer outside 429 and 500 and above;
      after a success that needs the body to be read without an unexpected throw. */
  lemma NoConnectionAfter(trace: seq<Event>, k: nat, j: nat)
    requires StopsAtEnd(trace) && AnswersAreRead(trace)
    requires k < j < |trace|
    requires match trace[k]
             case Asked(verdict) => verdict != Allowed
             case Replied(status) =>
               status != 429 && status < 500 &&
               (Good(status) ==> k + 1 < |trace| && trace[k + 1] != ParsedBody(ParseThrew))
             case _ => false
    ensures !trace[j].Connecting?
  {
    if trace[k].Replied? && Good(trace[k].status) { assert trace[k + 1].ParsedBody?; }
  }
}
