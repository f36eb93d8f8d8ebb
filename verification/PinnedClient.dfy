/**
 The pinned HTTP client: resolve once, vet every answer, then try the vetted addresses in order, asking for
 permission directly before each connection.  What the network, the permission callback and the abort
 signals answer is a `World`, read at the number of events so far; the events are recorded in a trace.
 */
module PinnedClient {
  import opened Wrappers
  import opened Seqs

  const MAX_SAFE_INTEGER := 9007199254740991

  datatype Answer = Answer(address: string, family: int)

  datatype Address = Address(address: string, family: int)

  datatype Host = IpLiteral(answer: Answer) | Name(name: string)

  datatype Url = Url(https: bool, host: Host)

  datatype DnsReply = Answers(answers: seq<Answer>) | DnsError(code: Option<string>)

  datatype Resolution = Addresses(addresses: seq<Address>) | NxDomain | Unverifiable(code: Option<string>)

  datatype CheckReply = ReturnedFalse | ReturnedRejection(reason: string) | ReturnedOther | CheckThrew

  datatype Verdict = Allowed | AuthorityChanged | Rejected(reason: string)

  datatype ConnectReply = Response(status: int) | ConnectError(code: Option<string>)

  datatype ParseReply = Parsed | NotJson | ParseThrew

  datatype Event =
    | Resolved(vetted: seq<Address>)
    | Asked(verdict: Verdict)
    | Connecting(address: Address)
    | Replied(status: int)
    | Failed(code: string)
    | ParsedBody(parse: ParseReply)
    | BackedOff

  /** `pin` is `pinnedAddressOf`: the canonical address of a global-unicast answer of the right family. */
  datatype World = World(
    pin: Answer -> Option<Address>,
    resolve: nat -> DnsReply,
    check: nat -> CheckReply,
    connect: (nat, Address) -> ConnectReply,
    parse: nat -> ParseReply,
    callerAborted: nat -> bool,
    timedOut: nat -> bool)
  {
    predicate SignalAborted(at: nat) { callerAborted(at) || timedOut(at) }
  }

  // ---- Resolution ----

  /** The answers, pinned, each address once, at its first place. */
  function Vetted(pin: Answer -> Option<Address>, answers: seq<Answer>): (r: seq<Address>)
    requires forall a :: a in answers ==> pin(a).Some?
    ensures NoRepeats(r)
    ensures forall x :: x in r <==> exists a :: a in answers && pin(a) == Some(x)
  {
    if answers == [] then []
    else
      var front := Vetted(pin, answers[..|answers| - 1]);
      var last := pin(answers[|answers| - 1]).value;
      assert answers == answers[..|answers| - 1] + [answers[|answers| - 1]];
      if last in front then front else front + [last]
  }

  function Vet(pin: Answer -> Option<Address>, answers: seq<Answer>): Resolution {
    if answers == [] then Unverifiable(Some("DNS_EMPTY"))
    else if exists a :: a in answers && pin(a).None? then Unverifiable(Some("DNS_NON_GLOBAL"))
    else Addresses(Vetted(pin, answers))
  }

  lemma VettedSnoc(pin: Answer -> Option<Address>, answers: seq<Answer>, i: nat)
    requires i < |answers| && forall a :: a in answers[..i + 1] ==> pin(a).Some?
    ensures forall a :: a in answers[..i] ==> pin(a).Some?
    ensures var front, last := Vetted(pin, answers[..i]), pin(answers[i]).value;
            Vetted(pin, answers[..i + 1]) == if last in front then front else front + [last]
  {
    var longer := answers[..i + 1];
    assert longer[..i] == answers[..i] && longer[i] == answers[i];
    forall a | a in answers[..i] ensures a in longer {
      var k :| 0 <= k < i && answers[..i][k] == a;
      assert longer[k] == a;
    }
  }

  /** The loop over the answers: one unsafe answer rejects them all. */
  method VetAnswers(pin: Answer -> Option<Address>, answers: seq<Answer>) returns (r: Resolution)
    ensures r == Vet(pin, answers)
  {
    if |answers| == 0 { return Unverifiable(Some("DNS_EMPTY")); }
    var addresses: seq<Address>, seen: set<Address>, i := [], {}, 0;
    while i < |answers|
      invariant 0 <= i <= |answers|
      invariant forall a :: a in answers[..i] ==> pin(a).Some?
      invariant addresses == Vetted(pin, answers[..i])
      invariant forall x :: x in seen <==> x in addresses
      invariant i > 0 ==> addresses != []
    {
      var pinned := pin(answers[i]);
      if pinned.None? {
        assert answers[i] in answers;
        return Unverifiable(Some("DNS_NON_GLOBAL"));
      }
      assert answers[..i + 1] == answers[..i] + [answers[i]];
      VettedSnoc(pin, answers, i);
      if pinned.value !in seen {
        seen := seen + {pinned.value};
        addresses := addresses + [pinned.value];
      }
      i := i + 1;
    }
    assert answers[..i] == answers;
    return if |addresses| > 0 then Addresses(addresses) else Unverifiable(Some("DNS_EMPTY"));
  }

  /** A literal host is vetted like one answer; a name is looked up. */
  function ResolutionOf(world: World, host: Host, at: nat): Resolution {
    match host
    case IpLiteral(answer) => Vet(world.pin, [answer])
    case Name(_) =>
      if world.SignalAborted(at) then Unverifiable(Some("ABORT_ERR"))
      else
        match world.resolve(at)
        case Answers(answers) => Vet(world.pin, answers)
        case DnsError(code) => if code in {Some("ENOTFOUND"), Some("ENODATA")} then NxDomain else Unverifiable(code)
  }

  /** What the answer set of a host is: its literal address, or what DNS answered. */
  function AnswersFor(world: World, host: Host, at: nat): seq<Answer> {
    match host
    case IpLiteral(answer) => [answer]
    case Name(_) => match world.resolve(at) case Answers(answers) => answers case DnsError(_) => []
  }

  /** A resolution that succeeds has pinned every answer, and names no address besides. */
  lemma ResolutionIsVetted(world: World, host: Host, at: nat)
    requires ResolutionOf(world, host, at).Addresses?
    ensures forall a :: a in AnswersFor(world, host, at) ==> world.pin(a).Some?
    ensures forall x :: x in ResolutionOf(world, host, at).addresses <==>
              exists a :: a in AnswersFor(world, host, at) && world.pin(a) == Some(x)
    ensures NoRepeats(ResolutionOf(world, host, at).addresses) && ResolutionOf(world, host, at).addresses != []
  {
    var answers := AnswersFor(world, host, at);
    assert answers != [] && answers[0] in answers;
    assert world.pin(answers[0]).value in Vetted(world.pin, answers);
  }

  method ResolvePinnedAddresses(world: World, host: Host, at: nat) returns (r: Resolution)
    ensures r == ResolutionOf(world, host, at)
    ensures r.Addresses? ==> NoRepeats(r.addresses) && r.addresses != []
  {
    match host
    case IpLiteral(answer) =>
      var pinned := world.pin(answer);
      assert [answer][0] in [answer];
      if pinned.None? { return Unverifiable(Some("DNS_NON_GLOBAL")); }
      assert Vetted(world.pin, [answer]) == [pinned.value];
      return Addresses([pinned.value]);
    case Name(_) =>
      if world.SignalAborted(at) { return Unverifiable(Some("ABORT_ERR")); }
      match world.resolve(at)
      case Answers(answers) =>
        r := VetAnswers(world.pin, answers);
        if r.Addresses? {
          assert world.pin(answers[0]).value in r.addresses;
        }
      case DnsError(code) =>
        return if code in {Some("ENOTFOUND"), Some("ENODATA")} then NxDomain else Unverifiable(code);
  }

  // ---- The response body ----

  datatype Body = Complete(bytes: seq<int>) | BodyTooLarge | InvalidCap

  /** The whole body, or nothing of it when it is longer than the cap. */
  method ReadCappedBody(chunks: seq<seq<int>>, maxBytes: int) returns (r: Body)
    ensures r == if !(0 < maxBytes <= MAX_SAFE_INTEGER) then InvalidCap
                 else if |Flatten(chunks)| <= maxBytes then Complete(Flatten(chunks))
                 else BodyTooLarge
  {
    if !(0 < maxBytes <= MAX_SAFE_INTEGER) { return InvalidCap; }
    var body: seq<int>, consumed, i := [], 0, 0;
    while i < |chunks|
      invariant 0 <= i <= |chunks|
      invariant Flatten(chunks) == body + Flatten(chunks[i..])
      invariant consumed == |body| <= maxBytes
    {
      assert chunks[i..][1..] == chunks[i + 1..];
      if |chunks[i]| > maxBytes - consumed { return BodyTooLarge; }
      body := body + chunks[i];
      consumed := consumed + |chunks[i]|;
      i := i + 1;
    }
    return Complete(body);
  }

  // ---- What a trace must satisfy ----

  /** The addresses connected to, in order. */
  function ConnectedTo(trace: seq<Event>): seq<Address> {
    if trace == [] then []
    else ConnectedTo(trace[..|trace| - 1]) + if trace[|trace| - 1].Connecting? then [trace[|trace| - 1].address] else []
  }

  /** The answer set that was vetted last. */
  function LatestVetted(trace: seq<Event>): seq<Address> {
    if trace == [] then []
    else match trace[|trace| - 1]
      case Resolved(vetted) => vetted
      case _ => LatestVetted(trace[..|trace| - 1])
  }

  /** How many connections followed the last resolution. */
  function SinceResolved(trace: seq<Event>): nat {
    if trace == [] then 0
    else match trace[|trace| - 1]
      case Resolved(_) => 0
      case Connecting(_) => SinceResolved(trace[..|trace| - 1]) + 1
      case _ => SinceResolved(trace[..|trace| - 1])
  }

  /** Directly before a connection its own permission was granted, and its address is in the answer set
      vetted last; an answer set has no address twice. */
  ghost predicate DisciplinedAt(trace: seq<Event>, k: nat)
    requires k < |trace|
  {
    && (trace[k].Connecting? ==>
          k > 0 && trace[k - 1] == Asked(Allowed) && trace[k].address in LatestVetted(trace[..k]))
    && (trace[k].Resolved? ==> NoRepeats(trace[k].vetted))
  }

  ghost predicate Disciplined(trace: seq<Event>) { forall k :: 0 <= k < |trace| ==> DisciplinedAt(trace, k) }

  /** An authority change, a rejection, an answer that is not to be retried, or a body that was read. */
  predicate Stopping(e: Event) {
    match e
    case Asked(verdict) => verdict != Allowed
    case Replied(status) => !(200 <= status < 300) && status != 429 && status < 500
    case ParsedBody(parse) => parse != ParseThrew
    case _ => false
  }

  ghost predicate NoStop(trace: seq<Event>) { forall k :: 0 <= k < |trace| ==> !Stopping(trace[k]) }

  /** Nothing at all happens after a stopping event. */
  ghost predicate StopsAtEnd(trace: seq<Event>) { forall k :: 0 <= k < |trace| - 1 ==> !Stopping(trace[k]) }

  /** Among the new events only the last can be an answer. */
  ghost predicate AnswersAtEnd(before: seq<Event>, trace: seq<Event>) {
    forall k :: |before| <= k < |trace| - 1 ==> !trace[k].Replied?
  }

  ghost predicate NoAnswers(before: seq<Event>, trace: seq<Event>) {
    forall k :: |before| <= k < |trace| ==> !trace[k].Replied?
  }

  lemma SnocReads(trace: seq<Event>, e: Event)
    ensures ConnectedTo(trace + [e]) == ConnectedTo(trace) + if e.Connecting? then [e.address] else []
    ensures LatestVetted(trace + [e]) == if e.Resolved? then e.vetted else LatestVetted(trace)
    ensures SinceResolved(trace + [e]) ==
              if e.Resolved? then 0 else if e.Connecting? then SinceResolved(trace) + 1 else SinceResolved(trace)
  {
    assert (trace + [e])[..|trace|] == trace;
  }

  lemma SnocStops(trace: seq<Event>, e: Event)
    requires NoStop(trace)
    ensures StopsAtEnd(trace + [e])
    ensures NoStop(trace + [e]) <==> !Stopping(e)
  {
    assert (trace + [e])[|trace|] == e;
  }

  lemma SnocDisciplined(trace: seq<Event>, e: Event)
    requires Disciplined(trace)
    requires e.Connecting? ==> trace != [] && trace[|trace| - 1] == Asked(Allowed) && e.address in LatestVetted(trace)
    requires e.Resolved? ==> NoRepeats(e.vetted)
    ensures Disciplined(trace + [e])
  {
    var next := trace + [e];
    forall k | 0 <= k < |next| ensures DisciplinedAt(next, k) {
      assert next[..k] == trace[..k];
      if k < |trace| { assert DisciplinedAt(trace, k); } else { assert next[..k] == trace; }
    }
  }

  lemma Snoc(trace: seq<Event>, e: Event)
    requires Disciplined(trace) && NoStop(trace)
    requires e.Connecting? ==> trace != [] && trace[|trace| - 1] == Asked(Allowed) && e.address in LatestVetted(trace)
    requires e.Resolved? ==> NoRepeats(e.vetted)
    ensures ConnectedTo(trace + [e]) == ConnectedTo(trace) + if e.Connecting? then [e.address] else []
    ensures LatestVetted(trace + [e]) == if e.Resolved? then e.vetted else LatestVetted(trace)
    ensures SinceResolved(trace + [e]) ==
              if e.Resolved? then 0 else if e.Connecting? then SinceResolved(trace) + 1 else SinceResolved(trace)
    ensures Disciplined(trace + [e]) && StopsAtEnd(trace + [e])
    ensures NoStop(trace + [e]) <==> !Stopping(e)
  {
    SnocReads(trace, e);
    SnocStops(trace, e);
    SnocDisciplined(trace, e);
  }

  // ---- One request ----

  datatype Verb = Get | Post | OtherVerb

  /** `url` is the canonical URL, if the text has one. */
  datatype Request = Request(url: Option<Url>, verb: Verb, bodyLength: nat, maxResponseBytes: int, checked: bool)

  datatype PinnedResult =
    | Answered(status: int, socketAttempts: nat)
    | NetworkError(code: string, retryable: bool, socketAttempts: nat)
    | AuthorityLost(socketAttempts: nat)
    | Refused(reason: string, socketAttempts: nat)

  const TERMINAL_CODES :=
    ["BODY_TOO_LARGE", "PINNED_HOSTNAME_MISMATCH", "REMOTE_ADDRESS_MISMATCH", "UNSUPPORTED_CONTENT_ENCODING"]

  const UNRETRYABLE_CODES := ["DNS_NON_GLOBAL", "DNS_EMPTY", "ABORT_ERR"]

  function Permission(world: World, request: Request, at: nat): Verdict {
    if !request.checked then Allowed
    else match world.check(at)
      case ReturnedFalse => AuthorityChanged
      case ReturnedRejection(reason) => Rejected(reason)
      case ReturnedOther => Allowed
      case CheckThrew => AuthorityChanged
  }

  function RejectedBeforeDns(request: Request): Option<string> {
    if request.url.None? || !request.url.value.https then Some("URL_REJECTED")
    else if request.verb == OtherVerb || (request.verb == Get && request.bodyLength > 0) then Some("REQUEST_REJECTED")
    else if !(0 < request.maxResponseBytes <= MAX_SAFE_INTEGER) then Some("INVALID_BODY_CAP")
    else None
  }

  predicate Good(status: int) { 200 <= status < 300 }

  /** How a result reads off the end of the trace. */
  ghost predicate Reads(result: PinnedResult, trace: seq<Event>) {
    match result
    case Answered(status, _) => trace != [] && trace[|trace| - 1] == Replied(status)
    case AuthorityLost(_) => trace != [] && trace[|trace| - 1] == Asked(AuthorityChanged)
    case Refused(reason, _) => trace != [] && trace[|trace| - 1] == Asked(Rejected(reason))
    case NetworkError(_, _, _) => NoStop(trace)
  }

  /** What one request adds to a trace: as many connections as it reports, to the first of the vetted
      addresses in order, hence to each at most once. */
  ghost predicate Grows(before: seq<Event>, after: seq<Event>, sockets: nat, cap: nat) {
    && before <= after
    && sockets <= cap
    && if sockets == 0 then ConnectedTo(after) == ConnectedTo(before)
       else
         && sockets <= |LatestVetted(after)|
         && ConnectedTo(after) == ConnectedTo(before) + LatestVetted(after)[..sockets]
  }

  // ---- What happens next, and what a request comes to ----

  function Min(a: nat, b: nat): nat { if a < b then a else b }

  function OutcomeOf(reply: ConnectReply): Event {
    match reply
    case Response(status) => Replied(status)
    case ConnectError(code) => Failed(if code.Some? then code.value else "CONNECTION_FAILED")
  }

  /** Every vetted address, up to the cap, has been connected to. */
  predicate AllTried(trace: seq<Event>, cap: nat) { SinceResolved(trace) >= Min(|LatestVetted(trace)|, cap) }

  /** Permission for the next address, if one is left. */
  function AskNext(world: World, request: Request, cap: nat, trace: seq<Event>): Option<Event> {
    if AllTried(trace, cap) then None else Some(Asked(Permission(world, request, |trace|)))
  }

  /** A failed connection that ends the request. */
  predicate Terminal(world: World, code: string, at: nat) { world.SignalAborted(at) || code in TERMINAL_CODES }

  /** The next event within a request whose host is resolved. */
  function NextInRequest(world: World, request: Request, cap: nat, trace: seq<Event>): Option<Event>
    requires trace != []
  {
    match trace[|trace| - 1]
    case Resolved(_) => AskNext(world, request, cap, trace)
    case Asked(verdict) =>
      if verdict == Allowed && SinceResolved(trace) < |LatestVetted(trace)|
      then Some(Connecting(LatestVetted(trace)[SinceResolved(trace)])) else None
    case Connecting(address) => Some(OutcomeOf(world.connect(|trace| - 1, address)))
    case Failed(code) => if Terminal(world, code, |trace|) then None else AskNext(world, request, cap, trace)
    case _ => None
  }

  predicate IsNext(world: World, request: Request, cap: nat, trace: seq<Event>, k: nat)
    requires k < |trace|
  {
    k > 0 && NextInRequest(world, request, cap, trace[..k]) == Some(trace[k])
  }

  /** From place `from` on, every event is the next one. */
  ghost predicate Continues(world: World, request: Request, cap: nat, from: nat, trace: seq<Event>) {
    forall k :: from <= k < |trace| ==> IsNext(world, request, cap, trace, k)
  }

  /** What the request comes to when nothing is next. */
  function ResultOf(world: World, trace: seq<Event>): PinnedResult
    requires trace != []
  {
    var n := SinceResolved(trace);
    match trace[|trace| - 1]
    case Replied(status) => Answered(status, n)
    case Asked(Rejected(reason)) => Refused(reason, n)
    case Asked(_) => AuthorityLost(n)
    case Failed(code) =>
      NetworkError(if world.SignalAborted(|trace|) then "ABORT_ERR" else code, !Terminal(world, code, |trace|), n)
    case _ => NetworkError("CONNECTION_FAILED", true, n)
  }

  /** The result of a host that is not resolved. */
  function Unresolved(resolution: Resolution): PinnedResult
    requires !resolution.Addresses?
  {
    var code := match resolution
      case NxDomain => "ENOTFOUND"
      case Unverifiable(reason) => if reason.Some? then reason.value else "DNS_UNVERIFIABLE";
    NetworkError(code, code !in UNRETRYABLE_CODES, 0)
  }

  /** A request runs from `before` to the end: the host resolved once, then each event the next one. */
  ghost predicate RunsFrom(world: World, request: Request, cap: nat, before: seq<Event>, result: PinnedResult,
                           trace: seq<Event>)
  {
    match RejectedBeforeDns(request)
    case Some(reason) => trace == before && result == NetworkError(reason, false, 0)
    case None =>
      match ResolutionOf(world, request.url.value.host, |before|)
      case Addresses(addresses) =>
        && before + [Resolved(addresses)] <= trace
        && Continues(world, request, cap, |before| + 1, trace)
        && NextInRequest(world, request, cap, trace).None?
        && result == ResultOf(world, trace)
      case resolution => trace == before && result == Unresolved(resolution)
  }

  lemma ContinuesSnoc(world: World, request: Request, cap: nat, from: nat, trace: seq<Event>, e: Event)
    requires trace != [] && Continues(world, request, cap, from, trace)
    requires NextInRequest(world, request, cap, trace) == Some(e)
    ensures Continues(world, request, cap, from, trace + [e])
  {
    var next := trace + [e];
    forall k | from <= k < |next| ensures IsNext(world, request, cap, next, k) {
      assert next[..k] == trace[..k];
      if k < |trace| { assert IsNext(world, request, cap, trace, k); } else { assert next[..k] == trace; }
    }
  }

  // ---- What the events say of the world ----

  /** The event at `k` is what the world answered there: the vetted answers, the permission, the connection. */
  predicate SaysTrue(world: World, request: Request, trace: seq<Event>, k: nat)
    requires k < |trace|
  {
    match trace[k]
    case Resolved(vetted) =>
      request.url.Some? && ResolutionOf(world, request.url.value.host, k) == Addresses(vetted)
    case Asked(verdict) => verdict == Permission(world, request, k)
    case Replied(_) | Failed(_) =>
      k > 0 && trace[k - 1].Connecting? && trace[k] == OutcomeOf(world.connect(k - 1, trace[k - 1].address))
    case ParsedBody(parse) => parse == world.parse(k)
    case _ => true
  }

  ghost predicate Truthful(world: World, request: Request, trace: seq<Event>) {
    forall k :: 0 <= k < |trace| ==> SaysTrue(world, request, trace, k)
  }

  lemma SnocTruthful(world: World, request: Request, trace: seq<Event>, e: Event)
    requires Truthful(world, request, trace) && SaysTrue(world, request, trace + [e], |trace|)
    ensures Truthful(world, request, trace + [e])
  {
    var next := trace + [e];
    forall k | 0 <= k < |next| ensures SaysTrue(world, request, next, k) {
      if k < |trace| { assert SaysTrue(world, request, trace, k); }
    }
  }

  datatype Attempt = NotAllowed(verdict: Verdict) | Got(status: int) | Broke(code: string, terminal: bool)

  /** How a permission or an outcome at the end of the trace is taken. */
  function AttemptOf(world: World, trace: seq<Event>): Attempt
    requires trace != []
  {
    match trace[|trace| - 1]
    case Replied(status) => Got(status)
    case Failed(code) =>
      Broke(if world.SignalAborted(|trace|) then "ABORT_ERR" else code, Terminal(world, code, |trace|))
    case Asked(verdict) => NotAllowed(verdict)
    case _ => Broke("CONNECTION_FAILED", false)
  }

  predicate Outcome(e: Event) { e.Replied? || e.Failed? }

  /** A granted permission, a connection and how it came out. */
  lemma ConnectionAdds(before: seq<Event>, address: Address, event: Event)
    requires Disciplined(before) && NoStop(before) && address in LatestVetted(before)
    requires before != [] && before[|before| - 1] == Asked(Allowed) && Outcome(event)
    ensures var trace := before + [Connecting(address)] + [event];
            && before < trace && trace[|trace| - 1] == event
            && Disciplined(trace) && StopsAtEnd(trace) && (event.Failed? ==> NoStop(trace))
            && LatestVetted(trace) == LatestVetted(before)
            && ConnectedTo(trace) == ConnectedTo(before) + [address]
            && AnswersAtEnd(before, trace)
  {
    Snoc(before, Connecting(address));
    Snoc(before + [Connecting(address)], event);
    assert ConnectedTo(before) + [address] + [] == ConnectedTo(before) + [address];
  }

  method ConnectOnce(world: World, address: Address, before: seq<Event>) returns (r: Attempt, trace: seq<Event>)
    ensures trace == before + [Connecting(address)] + [OutcomeOf(world.connect(|before|, address))]
    ensures r == AttemptOf(world, trace) && !r.NotAllowed?
  {
    var event := OutcomeOf(world.connect(|before|, address));
    trace := before + [Connecting(address)] + [event];
    match event
    case Replied(status) => return Got(status), trace;
    case Failed(code) =>
      var aborted := world.SignalAborted(|trace|);
      return Broke(if aborted then "ABORT_ERR" else code, aborted || code in TERMINAL_CODES), trace;
  }

  /** What asking for permission adds to a trace and, where it is granted, one connection. */
  ghost predicate Tries(world: World, request: Request, address: Address, before: seq<Event>, r: Attempt,
                        trace: seq<Event>)
  {
    var permission := Permission(world, request, |before|);
    var asked := before + [Asked(permission)];
    && trace != [] && r == AttemptOf(world, trace) && (r.NotAllowed? <==> permission != Allowed)
    && trace == if permission != Allowed then asked
                else asked + [Connecting(address)] + [OutcomeOf(world.connect(|asked|, address))]
  }

  /** Permission and then, only if it is granted, one connection. */
  method TryAddress(world: World, request: Request, address: Address, before: seq<Event>)
    returns (r: Attempt, trace: seq<Event>)
    ensures Tries(world, request, address, before, r, trace)
  {
    var permission := Permission(world, request, |before|);
    trace := before + [Asked(permission)];
    if permission != Allowed { return NotAllowed(permission), trace; }
    r, trace := ConnectOnce(world, address, trace);
  }

  // ---- The loop over the addresses ----

  /** What holds of a trace whatever comes next. */
  ghost predicate Sound(world: World, request: Request, trace: seq<Event>) {
    Disciplined(trace) && NoStop(trace) && Truthful(world, request, trace)
  }

  /** What holds of a trace that may have come to its end. */
  ghost predicate SoundToEnd(world: World, request: Request, trace: seq<Event>) {
    Disciplined(trace) && StopsAtEnd(trace) && Truthful(world, request, trace)
  }

  lemma AskedIsSound(world: World, request: Request, before: seq<Event>)
    requires Sound(world, request, before)
    ensures var verdict := Permission(world, request, |before|);
            var asked := before + [Asked(verdict)];
            && SoundToEnd(world, request, asked) && (verdict == Allowed ==> NoStop(asked))
            && LatestVetted(asked) == LatestVetted(before) && ConnectedTo(asked) == ConnectedTo(before)
            && SinceResolved(asked) == SinceResolved(before)
  {
    var e := Asked(Permission(world, request, |before|));
    Snoc(before, e);
    SnocTruthful(world, request, before, e);
    assert ConnectedTo(before) + [] == ConnectedTo(before);
  }

  lemma ConnectedIsSound(world: World, request: Request, address: Address, before: seq<Event>)
    requires Sound(world, request, before) && address in LatestVetted(before)
    requires before != [] && before[|before| - 1] == Asked(Allowed)
    ensures var event := OutcomeOf(world.connect(|before|, address));
            var trace := before + [Connecting(address)] + [event];
            && SoundToEnd(world, request, trace) && (event.Failed? ==> NoStop(trace))
            && LatestVetted(trace) == LatestVetted(before) && ConnectedTo(trace) == ConnectedTo(before) + [address]
            && SinceResolved(trace) == SinceResolved(before) + 1
  {
    var connecting, event := before + [Connecting(address)], OutcomeOf(world.connect(|before|, address));
    ConnectionAdds(before, address, event);
    SnocReads(before, Connecting(address));
    SnocReads(connecting, event);
    SnocTruthful(world, request, before, Connecting(address));
    SnocTruthful(world, request, connecting, event);
  }

  /** What one turn leaves, whatever its outcome. */
  lemma TriedIsSound(world: World, request: Request, address: Address, before: seq<Event>, r: Attempt,
                     trace: seq<Event>)
    requires Sound(world, request, before) && address in LatestVetted(before)
    requires Tries(world, request, address, before, r, trace)
    ensures before < trace && SoundToEnd(world, request, trace) && LatestVetted(trace) == LatestVetted(before)
    ensures r.Broke? ==> NoStop(trace) && !trace[|trace| - 1].Replied?
    ensures ConnectedTo(trace) == ConnectedTo(before) + if r.NotAllowed? then [] else [address]
    ensures SinceResolved(trace) == SinceResolved(before) + if r.NotAllowed? then 0 else 1
    ensures AnswersAtEnd(before, trace)
  {
    AskedIsSound(world, request, before);
    var asked := before + [Asked(Permission(world, request, |before|))];
    assert ConnectedTo(before) + [] == ConnectedTo(before);
    if !r.NotAllowed? { ConnectedIsSound(world, request, address, asked); }
  }

  lemma AskContinues(world: World, request: Request, cap: nat, from: nat, before: seq<Event>)
    requires before != [] && Continues(world, request, cap, from, before) && !AllTried(before, cap)
    requires NextInRequest(world, request, cap, before) == AskNext(world, request, cap, before)
    ensures Continues(world, request, cap, from, before + [Asked(Permission(world, request, |before|))])
  {
    ContinuesSnoc(world, request, cap, from, before, Asked(Permission(world, request, |before|)));
  }

  lemma NextAfterAsked(world: World, request: Request, cap: nat, before: seq<Event>, verdict: Verdict)
    requires SinceResolved(before) < |LatestVetted(before)|
    ensures NextInRequest(world, request, cap, before + [Asked(verdict)]) ==
              if verdict == Allowed then Some(Connecting(LatestVetted(before)[SinceResolved(before)])) else None
  {
    SnocReads(before, Asked(verdict));
  }

  lemma ConnectionContinues(world: World, request: Request, cap: nat, from: nat, before: seq<Event>, address: Address)
    requires before != [] && Continues(world, request, cap, from, before)
    requires NextInRequest(world, request, cap, before) == Some(Connecting(address))
    ensures Continues(world, request, cap, from,
                      before + [Connecting(address)] + [OutcomeOf(world.connect(|before|, address))])
  {
    var connecting := before + [Connecting(address)];
    ContinuesSnoc(world, request, cap, from, before, Connecting(address));
    ContinuesSnoc(world, request, cap, from, connecting, OutcomeOf(world.connect(|before|, address)));
  }

  lemma TriedContinues(world: World, request: Request, cap: nat, from: nat, before: seq<Event>, r: Attempt,
                       trace: seq<Event>)
    requires before != [] && Continues(world, request, cap, from, before) && !AllTried(before, cap)
    requires NextInRequest(world, request, cap, before) == AskNext(world, request, cap, before)
    requires Tries(world, request, LatestVetted(before)[SinceResolved(before)], before, r, trace)
    ensures Continues(world, request, cap, from, trace)
  {
    AskContinues(world, request, cap, from, before);
    NextAfterAsked(world, request, cap, before, Permission(world, request, |before|));
    if !r.NotAllowed? {
      var asked := before + [Asked(Allowed)];
      ConnectionContinues(world, request, cap, from, asked, LatestVetted(before)[SinceResolved(before)]);
    }
  }

  /** How the end of a turn is taken: the loop goes on exactly after a failure that is not terminal. */
  lemma TurnReads(world: World, request: Request, cap: nat, address: Address, before: seq<Event>, r: Attempt,
                  trace: seq<Event>)
    requires Tries(world, request, address, before, r, trace)
    ensures NextInRequest(world, request, cap, trace) ==
              if r.Broke? && !r.terminal then AskNext(world, request, cap, trace) else None
    ensures ResultOf(world, trace) == Taken(r, SinceResolved(trace))
  {}

  function Taken(r: Attempt, sockets: nat): PinnedResult {
    match r
    case NotAllowed(Rejected(reason)) => Refused(reason, sockets)
    case NotAllowed(_) => AuthorityLost(sockets)
    case Got(status) => Answered(status, sockets)
    case Broke(code, terminal) => NetworkError(code, !terminal, sockets)
  }

  /** Before the address at `i` is tried. */
  ghost predicate Midway(world: World, request: Request, addresses: seq<Address>, cap: nat, before: seq<Event>,
                         trace: seq<Event>, lastCode: string, i: nat)
  {
    && i <= |addresses| && i <= cap && before <= trace && trace != []
    && Sound(world, request, trace) && NoAnswers(before, trace)
    && LatestVetted(trace) == addresses && SinceResolved(trace) == i
    && ConnectedTo(trace) == ConnectedTo(before) + addresses[..i]
    && Continues(world, request, cap, |before|, trace)
    && NextInRequest(world, request, cap, trace) == AskNext(world, request, cap, trace)
    && ResultOf(world, trace) == NetworkError(lastCode, true, i)
  }

  /** The result, and a trace with nothing next. */
  ghost predicate Ended(world: World, request: Request, cap: nat, before: seq<Event>, result: PinnedResult,
                        trace: seq<Event>)
  {
    && before <= trace && trace != []
    && SoundToEnd(world, request, trace) && AnswersAtEnd(before, trace)
    && Continues(world, request, cap, |before|, trace)
    && NextInRequest(world, request, cap, trace).None? && result == ResultOf(world, trace)
    && Reads(result, trace) && Grows(before, trace, result.socketAttempts, cap)
    && (result.NetworkError? ==> NoAnswers(before, trace))
    && (result.NetworkError? && result.retryable ==> AllTried(trace, cap))
  }

  lemma StartsMidway(world: World, request: Request, addresses: seq<Address>, cap: nat, before: seq<Event>)
    requires Sound(world, request, before) && before != [] && before[|before| - 1] == Resolved(addresses)
    ensures Midway(world, request, addresses, cap, before, before, "CONNECTION_FAILED", 0)
  {
    assert ConnectedTo(before) + addresses[..0] == ConnectedTo(before);
  }

  lemma TurnGoesOn(world: World, request: Request, addresses: seq<Address>, cap: nat, before: seq<Event>,
                   asking: seq<Event>, lastCode: string, i: nat, r: Attempt, trace: seq<Event>)
    requires Midway(world, request, addresses, cap, before, asking, lastCode, i) && i < |addresses| && i < cap
    requires Tries(world, request, addresses[i], asking, r, trace) && r.Broke? && !r.terminal
    ensures Midway(world, request, addresses, cap, before, trace, r.code, i + 1)
  {
    TriedIsSound(world, request, addresses[i], asking, r, trace);
    TriedContinues(world, request, cap, |before|, asking, r, trace);
    TurnReads(world, request, cap, addresses[i], asking, r, trace);
    TakeSnoc(addresses, i);
    assert ConnectedTo(before) + addresses[..i] + [addresses[i]] == ConnectedTo(before) + addresses[..i + 1];
  }

  /** The connections of a loop that ends with this turn. */
  lemma TurnGrows(world: World, request: Request, addresses: seq<Address>, cap: nat, before: seq<Event>,
                  asking: seq<Event>, i: nat, r: Attempt, trace: seq<Event>)
    requires i < |addresses| && i < cap && before <= asking < trace && LatestVetted(trace) == addresses
    requires ConnectedTo(asking) == ConnectedTo(before) + addresses[..i]
    requires ConnectedTo(trace) == ConnectedTo(asking) + if r.NotAllowed? then [] else [addresses[i]]
    ensures Grows(before, trace, if r.NotAllowed? then i else i + 1, cap)
  {
    TakeSnoc(addresses, i);
    assert ConnectedTo(before) + addresses[..i] + [addresses[i]] == ConnectedTo(before) + addresses[..i + 1];
    assert ConnectedTo(before) + addresses[..i] + [] == ConnectedTo(before) + addresses[..i];
    assert ConnectedTo(before) + addresses[..0] == ConnectedTo(before);
  }

  lemma TurnEnds(world: World, request: Request, addresses: seq<Address>, cap: nat, before: seq<Event>,
                 asking: seq<Event>, lastCode: string, i: nat, r: Attempt, trace: seq<Event>)
    requires Midway(world, request, addresses, cap, before, asking, lastCode, i) && i < |addresses| && i < cap
    requires Tries(world, request, addresses[i], asking, r, trace) && !(r.Broke? && !r.terminal)
    ensures Ended(world, request, cap, before, Taken(r, if r.NotAllowed? then i else i + 1), trace)
    ensures LatestVetted(trace) == addresses
  {
    TriedIsSound(world, request, addresses[i], asking, r, trace);
    TriedContinues(world, request, cap, |before|, asking, r, trace);
    TurnReads(world, request, cap, addresses[i], asking, r, trace);
    TurnGrows(world, request, addresses, cap, before, asking, i, r, trace);
  }

  lemma LoopEnds(world: World, request: Request, addresses: seq<Address>, cap: nat, before: seq<Event>,
                 trace: seq<Event>, lastCode: string, i: nat)
    requires Midway(world, request, addresses, cap, before, trace, lastCode, i) && (i >= |addresses| || i >= cap)
    ensures Ended(world, request, cap, before, NetworkError(lastCode, true, i), trace)
  {
    assert ConnectedTo(before) + addresses[..0] == ConnectedTo(before);
  }

  /** The loop over the vetted addresses: every event is the next one, and a failure that may be retried has
      tried all of them, up to the cap. */
  method ConnectInOrder(world: World, request: Request, addresses: seq<Address>, cap: nat, before: seq<Event>)
    returns (result: PinnedResult, trace: seq<Event>)
    requires Sound(world, request, before) && before != [] && before[|before| - 1] == Resolved(addresses)
    ensures Ended(world, request, cap, before, result, trace) && LatestVetted(trace) == addresses
    ensures result.NetworkError? && result.retryable ==> result.socketAttempts == Min(|addresses|, cap)
  {
    StartsMidway(world, request, addresses, cap, before);
    trace := before;
    var lastCode, i := "CONNECTION_FAILED", 0;
    while i < |addresses| && i < cap
      invariant i <= |addresses| && i <= cap
      invariant Midway(world, request, addresses, cap, before, trace, lastCode, i)
    {
      var attempt, tried := TryAddress(world, request, addresses[i], trace);
      if !(attempt.Broke? && !attempt.terminal) {
        TurnEnds(world, request, addresses, cap, before, trace, lastCode, i, attempt, tried);
      } else {
        TurnGoesOn(world, request, addresses, cap, before, trace, lastCode, i, attempt, tried);
      }
      trace := tried;
      match attempt {
        case NotAllowed(AuthorityChanged) => return AuthorityLost(i), trace;
        case NotAllowed(Rejected(reason)) => return Refused(reason, i), trace;
        case Got(status) => return Answered(status, i + 1), trace;
        case Broke(code, terminal) =>
          if terminal { return NetworkError(code, false, i + 1), trace; }
          lastCode := code;
      }
      i := i + 1;
    }
    LoopEnds(world, request, addresses, cap, before, trace, lastCode, i);
    return NetworkError(lastCode, true, i), trace;
  }

  lemma GrowsFromResolved(before: seq<Event>, addresses: seq<Address>, after: seq<Event>, sockets: nat, cap: nat)
    requires Grows(before + [Resolved(addresses)], after, sockets, cap) &&
             AnswersAtEnd(before + [Resolved(addresses)], after)
    ensures Grows(before, after, sockets, cap) && AnswersAtEnd(before, after)
    ensures NoAnswers(before + [Resolved(addresses)], after) ==> NoAnswers(before, after)
  {
    SnocReads(before, Resolved(addresses));
    assert ConnectedTo(before) + [] == ConnectedTo(before);
    assert after[|before|] == (before + [Resolved(addresses)])[|before|];
  }

  /** One request of the client, from its checks to its result. */
  method PinnedRequest(world: World, request: Request, cap: nat, before: seq<Event>)
    returns (result: PinnedResult, trace: seq<Event>)
    requires Disciplined(before) && NoStop(before) && Truthful(world, request, before)
    ensures RunsFrom(world, request, cap, before, result, trace)
    ensures Truthful(world, request, trace)
    ensures Disciplined(trace) && StopsAtEnd(trace) && Reads(result, trace)
    ensures Grows(before, trace, result.socketAttempts, cap) && AnswersAtEnd(before, trace)
    ensures result.NetworkError? ==> NoAnswers(before, trace)
    ensures RejectedBeforeDns(request).Some? ==>
              trace == before && result == NetworkError(RejectedBeforeDns(request).value, false, 0)
  {
    var rejected := RejectedBeforeDns(request);
    if rejected.Some? {
      return NetworkError(rejected.value, false, 0), before;
    }
    var resolution := ResolvePinnedAddresses(world, request.url.value.host, |before|);
    match resolution
    case NxDomain => return NetworkError("ENOTFOUND", true, 0), before;
    case Unverifiable(reason) =>
      var code := if reason.Some? then reason.value else "DNS_UNVERIFIABLE";
      return NetworkError(code, code !in UNRETRYABLE_CODES, 0), before;
    case Addresses(addresses) =>
      Snoc(before, Resolved(addresses));
      SnocTruthful(world, request, before, Resolved(addresses));
      var resolved := before + [Resolved(addresses)];
      result, trace := ConnectInOrder(world, request, addresses, cap, resolved);
      GrowsFromResolved(before, addresses, trace, result.socketAttempts, cap);
  }
}
