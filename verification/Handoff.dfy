/**
 The browser side of the runtime handoff: one tab, its session storage, the page that is mounted in it
 and what the page has asked the server to do.

 A page can be reloaded at any moment it waits for the network, so each step here is the synchronous
 code between two waits.  Storage writes succeed, and one `completeHandoff` is active at a time.  Codes,
 nonces, tickets and ids stand for strings that match their patterns; an absent or malformed one is `None`.
 */
module Handoff {
  import opened Wrappers

  datatype Session = Session(principalId: nat, roundId: nat)

  datatype AuthState = NeedsExchange | NeedsAuthentication | Ambiguous | Authenticated

  /** The four session-storage keys.  Only `Ambiguous` and `Authenticated` are ever stored. */
  datatype Storage = Storage(
    code: Option<nat>,
    nonce: Option<nat>,
    auth: Option<AuthState>,
    expected: Option<Session>)

  const EMPTY := Storage(None, None, None, None)

  datatype View = Invalid | Expired | SessionFailed | Retryable | InLobby

  datatype Waiting =
    | ForReset
    | ForExchange
    | ForSignIn
    | ForBootstrap
    | ForMismatchReset
    | Resting(view: View)

  /** A mounted page: its refs and what it waits for. */
  datatype Page = Page(
    code: Option<nat>,
    nonce: Option<nat>,
    ticket: Option<nat>,
    expected: Option<Session>,
    auth: AuthState,
    staleSessionReset: bool,
    waiting: Waiting)

  /** What happened, in order: links opened, requests sent, answers taken, storage given up. */
  datatype Entry =
    | Opened(code: nat)
    | Exchanged(code: nat, nonce: nat)
    | Received(code: nat, ticket: nat, session: Session)
    | EnteredAmbiguous(code: nat)
    | Submitted(code: nat, submitted: Option<nat>)
    | Seeded(code: nat, session: Session)
    | Cleared

  datatype Tab = Tab(storage: Storage, page: Option<Page>, log: seq<Entry>)

  const NEW_TAB := Tab(EMPTY, None, [])

  datatype ExchangeReply =
    | Gone
    | BadRequest
    | ExchangeNotOk
    | Incomplete
    | ExchangeLost
    | Issued(ticket: nat, session: Session)

  datatype BootstrapReply =
    | NotFoundOrGone
    | Unauthorized
    | BootstrapNotOk
    | BootstrapLost
    | Ready(session: Session, seedingThrows: bool)

  /** `fragment` is the code in the address, if a valid one is there. */
  datatype Event =
    | Load(fragment: Option<nat>, freshNonce: nat)
    | ResetSettled(ok: bool)
    | ExchangeSettled(exchange: ExchangeReply)
    | SignInSettled(ok: bool)
    | BootstrapSettled(bootstrap: BootstrapReply)
    | MismatchResetSettled
    | Retry

  // ---- completeHandoff, from wait to wait ----

  function Rest(t: Tab, p: Page, view: View): Tab { t.(page := Some(p.(waiting := Resting(view)))) }

  function Await(t: Tab, p: Page, w: Waiting): Tab { t.(page := Some(p.(waiting := w))) }

  /** clearStoredHandoffCode followed by a terminal view. */
  function GiveUp(t: Tab, p: Page, view: View): Tab {
    Rest(t.(storage := EMPTY, log := t.log + [Cleared]), p, view)
  }

  /** From `needs_authentication`: the state is stored as ambiguous before the ticket is submitted. */
  function Authenticate(t: Tab, p: Page, code: nat): Tab {
    Await(t.(storage := t.storage.(auth := Some(Ambiguous)),
             log := t.log + [EnteredAmbiguous(code), Submitted(code, p.ticket)]),
          p.(auth := Ambiguous), ForSignIn)
  }

  function Begin(t: Tab, p: Page): Tab {
    if p.code.None? || p.nonce.None? then GiveUp(t, p, Invalid)
    else match p.auth
      case NeedsExchange => Await(t, p, ForReset)
      case NeedsAuthentication => Authenticate(t, p, p.code.value)
      case _ => Await(t, p, ForBootstrap)
  }

  function AfterReset(t: Tab, p: Page, ok: bool): Tab {
    if p.code.None? || p.nonce.None? then t
    else if ok || p.staleSessionReset
    then Await(t.(log := t.log + [Exchanged(p.code.value, p.nonce.value)]), p.(staleSessionReset := true), ForExchange)
    else Rest(t, p.(staleSessionReset := false), Retryable)
  }

  function AfterExchange(t: Tab, p: Page, reply: ExchangeReply): Tab {
    match reply
    case Gone => GiveUp(t, p, Expired)
    case BadRequest => GiveUp(t, p, Invalid)
    case Issued(ticket, session) =>
      if p.code.None? then t
      else Authenticate(
        t.(storage := t.storage.(expected := Some(session)), log := t.log + [Received(p.code.value, ticket, session)]),
        p.(ticket := Some(ticket), expected := Some(session), auth := NeedsAuthentication),
        p.code.value)
    case _ => Rest(t, p, Retryable)
  }

  function AfterSignIn(t: Tab, p: Page, ok: bool): Tab {
    if ok then Await(t.(storage := t.storage.(auth := Some(Authenticated))), p.(auth := Authenticated), ForBootstrap)
    else Await(t, p, ForBootstrap)
  }

  function AfterBootstrap(t: Tab, p: Page, reply: BootstrapReply): Tab {
    match reply
    case NotFoundOrGone => GiveUp(t, p, Expired)
    case Unauthorized => GiveUp(t, p, SessionFailed)
    case Ready(session, throws) =>
      if p.expected != Some(session) || p.code.None?
      then Await(t.(storage := EMPTY, log := t.log + [Cleared]), p, ForMismatchReset)
      else
        var seeded := t.(log := t.log + [Seeded(p.code.value, session)]);
        if throws then Rest(seeded, p, Retryable) else GiveUp(seeded, p, InLobby)
    case _ => Rest(t, p, Retryable)
  }

  // ---- The mount effect ----

  /** The page mounted with the code in its address: it resumes that code's record or starts over. */
  function Linked(t: Tab, code: nat, freshNonce: nat): Tab {
    var s := t.storage;
    var resumes := s.code == Some(code);
    var nonce := if resumes && s.nonce.Some? then s.nonce else Some(freshNonce);
    var log := t.log + [Opened(code)];
    if resumes && s.auth.Some?
    then Tab(Storage(Some(code), nonce, s.auth, s.expected),
             Some(Page(Some(code), nonce, None, s.expected, s.auth.value, false, ForReset)), log)
    else Tab(Storage(Some(code), nonce, None, None),
             Some(Page(Some(code), nonce, None, None, NeedsExchange, false, ForReset)), log)
  }

  /** The page mounted without one: it takes up what storage holds. */
  function Reloaded(t: Tab, freshNonce: nat): Tab {
    var s := t.storage;
    var nonce := if s.code.Some? && s.nonce.None? then Some(freshNonce) else s.nonce;
    var auth := if s.auth.Some? then s.auth.value else NeedsExchange;
    Tab(s.(nonce := nonce), Some(Page(s.code, nonce, None, s.expected, auth, false, ForReset)), t.log)
  }

  function Mount(t: Tab, fragment: Option<nat>, freshNonce: nat): Tab {
    var u := match fragment case Some(code) => Linked(t, code, freshNonce) case None => Reloaded(t, freshNonce);
    Begin(u, u.page.value)
  }

  /** One event; an answer nobody waits for any more changes nothing. */
  function Act(t: Tab, e: Event): Tab {
    if e.Load? then Mount(t, e.fragment, e.freshNonce)
    else if t.page.None? then t
    else
      var p := t.page.value;
      match (e, p.waiting)
      case (ResetSettled(ok), ForReset) => AfterReset(t, p, ok)
      case (ExchangeSettled(reply), ForExchange) => AfterExchange(t, p, reply)
      case (SignInSettled(ok), ForSignIn) => AfterSignIn(t, p, ok)
      case (BootstrapSettled(reply), ForBootstrap) => AfterBootstrap(t, p, reply)
      case (MismatchResetSettled, ForMismatchReset) => Rest(t, p, SessionFailed)
      case (Retry, Resting(Retryable)) => Begin(t, p)
      case _ => t
  }

  function Run(events: seq<Event>): Tab {
    if events == [] then NEW_TAB else Act(Run(events[..|events| - 1]), events[|events| - 1])
  }

  // ---- What the log says about a code ----

  /** `code` entered the ambiguous state, and since then its stored record was neither given up nor
      replaced by opening another link. */
  predicate Pending(log: seq<Entry>, code: nat) {
    if log == [] then false
    else match log[|log| - 1]
      case EnteredAmbiguous(c) => c == code || Pending(log[..|log| - 1], code)
      case Opened(c) => c == code && Pending(log[..|log| - 1], code)
      case Cleared => false
      case _ => Pending(log[..|log| - 1], code)
  }

  /** The nonce `code` was last exchanged with, while its stored record has been kept. */
  function BoundNonce(log: seq<Entry>, code: nat): Option<nat> {
    if log == [] then None
    else match log[|log| - 1]
      case Exchanged(c, n) => if c == code then Some(n) else BoundNonce(log[..|log| - 1], code)
      case Opened(c) => if c == code then BoundNonce(log[..|log| - 1], code) else None
      case Cleared => None
      case _ => BoundNonce(log[..|log| - 1], code)
  }

  /** The session that the latest successful exchange of `code` returned. */
  function LastSession(log: seq<Entry>, code: nat): Option<Session> {
    if log == [] then None
    else match log[|log| - 1]
      case Received(c, _, session) => if c == code then Some(session) else LastSession(log[..|log| - 1], code)
      case _ => LastSession(log[..|log| - 1], code)
  }

  /** The submission at `k` directly follows the answer that brought its ticket. */
  predicate Fresh(log: seq<Entry>, k: nat)
    requires k < |log| && log[k].Submitted?
  {
    && k >= 2
    && log[k - 1] == EnteredAmbiguous(log[k].code)
    && log[k - 2].Received?
    && log[k - 2].code == log[k].code
    && log[k].submitted == Some(log[k - 2].ticket)
  }

  /** What every entry of the log may rely on, given the entries before it. */
  ghost predicate Justified(log: seq<Entry>, k: nat)
    requires k < |log|
  {
    match log[k]
    case Exchanged(code, nonce) =>
      && !Pending(log[..k], code)
      && (BoundNonce(log[..k], code) == None || BoundNonce(log[..k], code) == Some(nonce))
    case Submitted(code, ticket) => Fresh(log, k)
    case Seeded(code, session) => LastSession(log[..k], code) == Some(session)
    case _ => true
  }

  ghost predicate AllJustified(log: seq<Entry>) { forall k :: 0 <= k < |log| ==> Justified(log, k) }

  // ---- The invariant ----

  /** What the log says about a code is what storage still holds for it. */
  ghost predicate Core(s: Storage, log: seq<Entry>) {
    && AllJustified(log)
    && (s.auth.Some? ==> s.auth.value in {Ambiguous, Authenticated})
    && (s.expected.Some? ==> s.code.Some? && LastSession(log, s.code.value) == s.expected)
    && (forall c: nat :: Pending(log, c) ==> s.code == Some(c) && s.auth.Some?)
    && (forall c: nat :: BoundNonce(log, c).Some? ==> s.code == Some(c) && s.nonce == BoundNonce(log, c))
  }

  ghost predicate Live(w: Waiting) {
    w !in {ForMismatchReset, Resting(Invalid), Resting(Expired), Resting(SessionFailed), Resting(InLobby)}
  }

  /** The page works on the record that storage holds, unless it has given it up. */
  ghost predicate PageInv(s: Storage, log: seq<Entry>, p: Page) {
    && p.auth != NeedsAuthentication
    && (p.expected.Some? ==> p.code.Some? && LastSession(log, p.code.value) == p.expected)
    && (p.waiting in {ForReset, ForExchange} ==> p.auth == NeedsExchange)
    && (Live(p.waiting) ==> p.code.Some? && p.nonce.Some? && s.code == p.code && s.nonce == p.nonce)
    && (forall c: nat :: Pending(log, c) ==> p.auth in {Ambiguous, Authenticated})
  }

  ghost predicate Inv(t: Tab) {
    Core(t.storage, t.log) && (t.page.Some? ==> PageInv(t.storage, t.log, t.page.value))
  }

  lemma Extend(log: seq<Entry>, e: Entry)
    requires AllJustified(log) && Justified(log + [e], |log|)
    ensures AllJustified(log + [e])
  {
    forall k | 0 <= k < |log| ensures Justified(log + [e], k) {
      assert (log + [e])[..k] == log[..k];
      assert Justified(log, k);
    }
  }

  function PendingAfter(before: bool, e: Entry, c: nat): bool {
    match e
    case EnteredAmbiguous(d) => d == c || before
    case Opened(d) => d == c && before
    case Cleared => false
    case _ => before
  }

  function BoundAfter(before: Option<nat>, e: Entry, c: nat): Option<nat> {
    match e
    case Exchanged(d, n) => if d == c then Some(n) else before
    case Opened(d) => if d == c then before else None
    case Cleared => None
    case _ => before
  }

  function SessionAfter(before: Option<Session>, e: Entry, c: nat): Option<Session> {
    match e
    case Received(d, _, session) => if d == c then Some(session) else before
    case _ => before
  }

  /** What one more entry does to the readings of the log. */
  lemma Readings(log: seq<Entry>, e: Entry)
    ensures (log + [e])[..|log|] == log
    ensures forall c: nat :: Pending(log + [e], c) == PendingAfter(Pending(log, c), e, c)
    ensures forall c: nat :: BoundNonce(log + [e], c) == BoundAfter(BoundNonce(log, c), e, c)
    ensures forall c: nat :: LastSession(log + [e], c) == SessionAfter(LastSession(log, c), e, c)
  {
    assert (log + [e])[..|log|] == log;
  }

  lemma GiveUpKeeps(t: Tab, p: Page, view: View)
    requires Core(t.storage, t.log) && view != Retryable
    requires p.auth != NeedsAuthentication
    requires p.expected.Some? ==> p.code.Some? && LastSession(t.log, p.code.value) == p.expected
    ensures Inv(GiveUp(t, p, view))
    ensures PageInv(EMPTY, t.log + [Cleared], p.(waiting := ForMismatchReset))
  {
    Readings(t.log, Cleared);
    Extend(t.log, Cleared);
  }

  lemma AuthenticateKeeps(t: Tab, p: Page, code: nat, ticket: nat, session: Session)
    requires Core(t.storage, t.log) && PageInv(t.storage, t.log, p) && p.waiting == ForExchange && p.code == Some(code)
    ensures Inv(AfterExchange(t, p, Issued(ticket, session)))
  {
    var a, b, c := Received(code, ticket, session), EnteredAmbiguous(code), Submitted(code, Some(ticket));
    var one, two := t.log + [a], t.log + [a] + [b];
    Readings(t.log, a);
    Extend(t.log, a);
    Readings(one, b);
    Extend(one, b);
    Readings(two, c);
    assert Fresh(two + [c], |two|);
    Extend(two, c);
    assert one + [b, c] == two + [c];
  }

  lemma ExchangeKeeps(t: Tab, p: Page, ok: bool)
    requires Core(t.storage, t.log) && PageInv(t.storage, t.log, p) && p.waiting == ForReset
    ensures Inv(AfterReset(t, p, ok))
  {
    if ok || p.staleSessionReset {
      var e := Exchanged(p.code.value, p.nonce.value);
      Readings(t.log, e);
      Extend(t.log, e);
    }
  }

  lemma BootstrapKeeps(t: Tab, p: Page, reply: BootstrapReply)
    requires Core(t.storage, t.log) && PageInv(t.storage, t.log, p) && p.waiting == ForBootstrap
    ensures Inv(AfterBootstrap(t, p, reply))
  {
    match reply
    case NotFoundOrGone => GiveUpKeeps(t, p, Expired);
    case Unauthorized => GiveUpKeeps(t, p, SessionFailed);
    case Ready(session, throws) =>
      GiveUpKeeps(t, p, InLobby);
      if p.expected == Some(session) {
        var e := Seeded(p.code.value, session);
        Readings(t.log, e);
        Extend(t.log, e);
        if !throws { GiveUpKeeps(t.(log := t.log + [e]), p, InLobby); }
      }
    case _ =>
  }

  lemma BeginKeeps(t: Tab, p: Page)
    requires Core(t.storage, t.log) && PageInv(t.storage, t.log, p.(waiting := Resting(Invalid)))
    requires t.storage.code == p.code && t.storage.nonce == p.nonce
    ensures Inv(Begin(t, p))
  {
    if p.code.None? || p.nonce.None? { GiveUpKeeps(t, p, Invalid); }
  }

  lemma MountKeeps(t: Tab, fragment: Option<nat>, freshNonce: nat)
    requires Inv(t)
    ensures Inv(Mount(t, fragment, freshNonce))
  {
    match fragment
    case Some(code) =>
      Readings(t.log, Opened(code));
      Extend(t.log, Opened(code));
      BeginKeeps(Linked(t, code, freshNonce), Linked(t, code, freshNonce).page.value);
    case None =>
      BeginKeeps(Reloaded(t, freshNonce), Reloaded(t, freshNonce).page.value);
  }

  lemma ActKeeps(t: Tab, e: Event)
    requires Inv(t)
    ensures Inv(Act(t, e))
  {
    if e.Load? {
      MountKeeps(t, e.fragment, e.freshNonce);
    } else if t.page.Some? {
      var p := t.page.value;
      match (e, p.waiting)
      case (ResetSettled(ok), ForReset) => ExchangeKeeps(t, p, ok);
      case (ExchangeSettled(reply), ForExchange) =>
        match reply {
          case Gone => GiveUpKeeps(t, p, Expired);
          case BadRequest => GiveUpKeeps(t, p, Invalid);
          case Issued(ticket, session) => AuthenticateKeeps(t, p, p.code.value, ticket, session);
          case _ =>
        }
      case (BootstrapSettled(reply), ForBootstrap) => BootstrapKeeps(t, p, reply);
      case (Retry, Resting(Retryable)) => BeginKeeps(t, p);
      case _ =>
    }
  }

  lemma {:induction false} RunKeeps(events: seq<Event>)
    ensures Inv(Run(events))
  {
    if events != [] {
      RunKeeps(events[..|events| - 1]);
      ActKeeps(Run(events[..|events| - 1]), events[|events| - 1]);
    }
  }

  // ---- What a page expects ----

  /** A record with progress, and a page that has authenticated, know the session of their code's exchange. */
  ghost predicate Expects(t: Tab) {
    && (t.storage.auth.Some? ==> t.storage.expected.Some?)
    && (t.page.Some? && Live(t.page.value.waiting) && t.page.value.auth in {Ambiguous, Authenticated} ==>
          t.page.value.expected.Some? && t.storage.auth.Some?)
    && (t.page.Some? && t.page.value.waiting in {ForSignIn, ForBootstrap} ==>
          t.page.value.auth in {Ambiguous, Authenticated})
  }

  lemma MountExpects(t: Tab, fragment: Option<nat>, freshNonce: nat)
    requires Inv(t) && Expects(t)
    ensures Expects(Mount(t, fragment, freshNonce))
  {}

  lemma ActExpects(t: Tab, e: Event)
    requires Inv(t) && Expects(t)
    ensures Expects(Act(t, e))
  {
    if e.Load? { MountExpects(t, e.fragment, e.freshNonce); }
  }

  lemma {:induction false} RunExpects(events: seq<Event>)
    ensures Expects(Run(events))
  {
    if events != [] {
      RunExpects(events[..|events| - 1]);
      RunKeeps(events[..|events| - 1]);
      ActExpects(Run(events[..|events| - 1]), events[|events| - 1]);
    }
  }

  /** A page that waits for the bootstrap expects the session that the last exchange of its code returned. */
  lemma BootstrapExpects(events: seq<Event>)
    requires Run(events).page.Some? && Run(events).page.value.waiting == ForBootstrap
    ensures var t := Run(events);
            && t.page.value.code.Some? && t.page.value.expected.Some?
            && t.page.value.expected == LastSession(t.log, t.page.value.code.value)
  {
    RunKeeps(events);
    RunExpects(events);
  }

  /** Over every run, the answer of the bootstrap is taken for the interview exactly when it is for the session of
      the code's last exchange; the page then goes to the lobby exactly when seeding does not throw, and gives up the
      record with it.  Any other session gives up the record and ends without seeding. */
  lemma BootstrapSeedsIff(events: seq<Event>, session: Session, throws: bool)
    requires Run(events).page.Some? && Run(events).page.value.waiting == ForBootstrap
    ensures
      var t, u := Run(events), Run(events + [BootstrapSettled(Ready(session, throws))]);
      var p := t.page.value;
      && p.code.Some? && u.page.Some?
      && if LastSession(t.log, p.code.value) == Some(session)
         then
           && u.log == t.log + [Seeded(p.code.value, session)] + (if throws then [] else [Cleared])
           && u.storage == (if throws then t.storage else EMPTY)
           && u.page == Some(p.(waiting := Resting(if throws then Retryable else InLobby)))
         else
           && u.log == t.log + [Cleared] && u.storage == EMPTY
           && u.page == Some(p.(waiting := ForMismatchReset))
  {
    BootstrapExpects(events);
    RunSnoc(events, BootstrapSettled(Ready(session, throws)));
  }

  /** Every other answer to the exchange or the bootstrap: a final one gives up the record, and any other leaves
      storage and log as they were, for a retry. */
  lemma OtherAnswers(events: seq<Event>, e: Event)
    requires Run(events).page.Some? && (e.ExchangeSettled? || e.BootstrapSettled?)
    requires Run(events).page.value.waiting == if e.ExchangeSettled? then ForExchange else ForBootstrap
    requires !(e.ExchangeSettled? && e.exchange.Issued?) && !(e.BootstrapSettled? && e.bootstrap.Ready?)
    ensures
      var t, u := Run(events), Run(events + [e]);
      var final :=
        if e == ExchangeSettled(Gone) || e == BootstrapSettled(NotFoundOrGone) then Some(Expired)
        else if e == ExchangeSettled(BadRequest) then Some(Invalid)
        else if e == BootstrapSettled(Unauthorized) then Some(SessionFailed)
        else None;
      && u.page == Some(t.page.value.(waiting := Resting(if final.Some? then final.value else Retryable)))
      && u.storage == (if final.Some? then EMPTY else t.storage)
      && u.log == t.log + (if final.Some? then [Cleared] else [])
  {
    RunSnoc(events, e);
  }

  // ---- A handoff that goes through ----

  /** From any tab: the five events of an undisturbed handoff. */
  lemma LinkReaches(t: Tab, code: nat, freshNonce: nat, ticket: nat, session: Session, signedIn: bool)
    requires Inv(t) && !(t.storage.code == Some(code) && t.storage.auth.Some?)
    ensures
      var asked := Act(Act(t, Load(Some(code), freshNonce)), ResetSettled(true));
      var u := Act(Act(asked, ExchangeSettled(Issued(ticket, session))), SignInSettled(signedIn));
      && u.page.Some? && u.page.value.waiting == ForBootstrap && u.page.value.code == Some(code)
      && u.page.value.expected == Some(session)
      && u.storage.code == Some(code) && u.storage.expected == Some(session)
      && u.storage.auth == Some(if signedIn then Authenticated else Ambiguous)
      && exists n: nat :: u.log == t.log + [Opened(code), Exchanged(code, n), Received(code, ticket, session),
                                            EnteredAmbiguous(code), Submitted(code, Some(ticket))]
  {
    var begun := Act(t, Load(Some(code), freshNonce));
    var n := begun.page.value.nonce.value;
    var asked := Act(begun, ResetSettled(true));
    assert asked.log == t.log + [Opened(code), Exchanged(code, n)];
    var authenticating := Act(asked, ExchangeSettled(Issued(ticket, session)));
    assert authenticating.log == t.log + [Opened(code), Exchanged(code, n), Received(code, ticket, session),
                                          EnteredAmbiguous(code), Submitted(code, Some(ticket))];
  }

  /** Any four events after a run. */
  lemma FourMore(events: seq<Event>, a: Event, b: Event, c: Event, d: Event)
    ensures Run(events + [a] + [b] + [c] + [d]) == Act(Act(Act(Act(Run(events), a), b), c), d)
  {
    RunSnoc(events, a);
    RunSnoc(events + [a], b);
    RunSnoc(events + [a] + [b], c);
    RunSnoc(events + [a] + [b] + [c], d);
  }

  /** After any run, a link whose record with progress is not held, undisturbed answers, and a bootstrap for the
      session exchanged, whatever became of the sign-in's own answer: the interview is seeded and in the lobby. */
  lemma LinkReachesLobby(events: seq<Event>, code: nat, freshNonce: nat, ticket: nat, session: Session, signedIn: bool)
    requires !(Run(events).storage.code == Some(code) && Run(events).storage.auth.Some?)
    ensures
      var signed := events + [Load(Some(code), freshNonce)] + [ResetSettled(true)]
                    + [ExchangeSettled(Issued(ticket, session))] + [SignInSettled(signedIn)];
      var u := Run(signed + [BootstrapSettled(Ready(session, false))]);
      && u.storage == EMPTY && u.page.Some? && u.page.value.waiting == Resting(InLobby)
      && u.log == Run(signed).log + [Seeded(code, session), Cleared]
      && exists n: nat :: Run(signed).log == Run(events).log +
           [Opened(code), Exchanged(code, n), Received(code, ticket, session), EnteredAmbiguous(code),
            Submitted(code, Some(ticket))]
  {
    var a, b := Load(Some(code), freshNonce), ResetSettled(true);
    var c, d := ExchangeSettled(Issued(ticket, session)), SignInSettled(signedIn);
    RunKeeps(events);
    LinkReaches(Run(events), code, freshNonce, ticket, session, signedIn);
    FourMore(events, a, b, c, d);
    InLobbyAfter(events + [a] + [b] + [c] + [d], code, session);
  }

  lemma InLobbyAfter(events: seq<Event>, code: nat, session: Session)
    requires Run(events).page.Some? && Run(events).page.value.waiting == ForBootstrap
    requires Run(events).page.value.code == Some(code) && Run(events).page.value.expected == Some(session)
    ensures
      var u := Run(events + [BootstrapSettled(Ready(session, false))]);
      && u.storage == EMPTY && u.page.Some? && u.page.value.waiting == Resting(InLobby)
      && u.log == Run(events).log + [Seeded(code, session), Cleared]
  {
    RunSnoc(events, BootstrapSettled(Ready(session, false)));
    assert Run(events).log + [Seeded(code, session)] + [Cleared] == Run(events).log + [Seeded(code, session), Cleared];
  }

  /** The answers to the two resets: the first lets the exchange go out under the page's code and nonce if it went
      through, now or on an earlier try of this page, and otherwise leaves a retry; after the second the session has
      failed for good. */
  lemma ResetAnswers(events: seq<Event>, ok: bool)
    requires Run(events).page.Some?
    ensures Run(events).page.value.waiting == ForReset ==>
              var t, u := Run(events), Run(events + [ResetSettled(ok)]);
              var p := t.page.value;
              && u.storage == t.storage && p.code.Some? && p.nonce.Some?
              && if ok || p.staleSessionReset
                 then
                   && u.log == t.log + [Exchanged(p.code.value, p.nonce.value)]
                   && u.page == Some(p.(staleSessionReset := true, waiting := ForExchange))
                 else u.log == t.log && u.page == Some(p.(waiting := Resting(Retryable)))
    ensures Run(events).page.value.waiting == ForMismatchReset ==>
              var t, u := Run(events), Run(events + [MismatchResetSettled]);
              u == t.(page := Some(t.page.value.(waiting := Resting(SessionFailed))))
  {
    RunKeeps(events);
    RunSnoc(events, ResetSettled(ok));
    RunSnoc(events, MismatchResetSettled);
  }

  /** A tab that holds a record with progress, reloaded or opened with the same link, asks for the bootstrap at once,
      with no other request, and expects the session of that record. */
  lemma RecordResumes(events: seq<Event>, fragment: Option<nat>, freshNonce: nat)
    requires Run(events).storage.auth.Some? && Run(events).storage.code.Some?
    requires fragment in {None, Run(events).storage.code} && Run(events).storage.nonce.Some?
    ensures
      var t, u := Run(events), Run(events + [Load(fragment, freshNonce)]);
      && u.storage == t.storage && u.page.Some? && u.page.value.waiting == ForBootstrap
      && u.page.value.expected == LastSession(t.log, t.storage.code.value) && u.page.value.expected.Some?
      && u.log == t.log + (if fragment.Some? then [Opened(fragment.value)] else [])
  {
    RunKeeps(events);
    RunExpects(events);
    RunSnoc(events, Load(fragment, freshNonce));
  }

  // ---- The promises ----

  /** Over every run: while a code's record is kept, an exchange of it never follows its entry into the
      ambiguous state and always repeats the nonce of its earlier exchanges. */
  lemma ExchangesAreBound(events: seq<Event>, k: nat, code: nat, nonce: nat)
    requires k < |Run(events).log| && Run(events).log[k] == Exchanged(code, nonce)
    ensures !Pending(Run(events).log[..k], code)
    ensures BoundNonce(Run(events).log[..k], code) in {None, Some(nonce)}
  {
    RunKeeps(events);
    assert Justified(Run(events).log, k);
  }

  /** Interviews are seeded, and left for the lobby, only for the session that the exchange of that very
      code returned last. */
  lemma SeedsMatchTheExchange(events: seq<Event>, k: nat, code: nat, session: Session)
    requires k < |Run(events).log| && Run(events).log[k] == Seeded(code, session)
    ensures LastSession(Run(events).log[..k], code) == Some(session)
  {
    RunKeeps(events);
    assert Justified(Run(events).log, k);
  }

  /** Every submission directly follows the exchange answer that brought its ticket. */
  lemma SubmissionsAreFresh(events: seq<Event>, k: nat)
    requires k < |Run(events).log| && Run(events).log[k].Submitted?
    ensures Fresh(Run(events).log, k)
  {
    RunKeeps(events);
    assert Justified(Run(events).log, k);
  }

  /** The server never issues a ticket twice. */
  ghost predicate TicketsDistinct(log: seq<Entry>) {
    forall i, j :: 0 <= i < j < |log| && log[i].Received? && log[j].Received? ==> log[i].ticket != log[j].ticket
  }

  /** Over every run, each ticket is submitted at most once. */
  lemma TicketsAreSubmittedOnce(events: seq<Event>, i: nat, j: nat)
    requires TicketsDistinct(Run(events).log)
    requires i < j < |Run(events).log| && Run(events).log[i].Submitted? && Run(events).log[j].Submitted?
    ensures Run(events).log[i].submitted != Run(events).log[j].submitted
  {
    SubmissionsAreFresh(events, i);
    SubmissionsAreFresh(events, j);
  }

  /** The whole-run promise that no exchange of a code follows its entry into the ambiguous state. */
  ghost predicate NeverExchangedAgain(log: seq<Entry>) {
    forall i, j, n: nat :: 0 <= i < j < |log| && log[i].EnteredAmbiguous? ==> log[j] != Exchanged(log[i].code, n)
  }

  lemma RunSnoc(events: seq<Event>, e: Event)
    ensures Run(events + [e]) == Act(Run(events), e)
  {
    assert (events + [e])[..|events|] == events;
  }

  /** What opening a link in a tab adds to the log, up to the acknowledged reset. */
  lemma OpeningLogs(t: Tab, code: nat, freshNonce: nat)
    requires Inv(t)
    ensures var log := Act(Act(t, Load(Some(code), freshNonce)), ResetSettled(true)).log;
            if t.storage.code == Some(code) && t.storage.auth.Some? then log == t.log + [Opened(code)]
            else exists n: nat :: log == t.log + [Opened(code), Exchanged(code, n)]
  {
    var u := Act(t, Load(Some(code), freshNonce));
    if !(t.storage.code == Some(code) && t.storage.auth.Some?) {
      assert Act(u, ResetSettled(true)).log == t.log + [Opened(code), Exchanged(code, u.page.value.nonce.value)];
    }
  }

  /** Opening a link asks the server to exchange it again exactly when the tab does not hold that link's
      record with authentication progress; the reset before it must be acknowledged. */
  lemma OpeningExchangesIff(events: seq<Event>, code: nat, freshNonce: nat)
    ensures var t := Run(events);
            var asked := Run(events + [Load(Some(code), freshNonce)] + [ResetSettled(true)]).log;
            (exists n: nat :: asked == t.log + [Opened(code), Exchanged(code, n)])
              <==> !(t.storage.code == Some(code) && t.storage.auth.Some?)
  {
    RunKeeps(events);
    RunSnoc(events, Load(Some(code), freshNonce));
    RunSnoc(events + [Load(Some(code), freshNonce)], ResetSettled(true));
    OpeningLogs(Run(events), code, freshNonce);
  }

  // ---- When no code is exchanged again ----

  /** The tab holds the record of `code` with authentication progress. */
  predicate Holds(t: Tab, code: nat) { t.storage.code == Some(code) && t.storage.auth.Some? }

  /** The step that exchanges a code whose authentication has been ambiguous: its page waits for a reset,
      and the reset is acknowledged or need not be. */
  predicate ReExchanges(t: Tab, e: Event) {
    && e.ResetSettled? && t.page.Some? && t.page.value.waiting == ForReset
    && (e.ok || t.page.value.staleSessionReset)
    && t.page.value.code.Some? && t.page.value.nonce.Some?
    && EnteredAmbiguous(t.page.value.code.value) in t.log
  }

  /** An entry that is no exchange, or one of a code never ambiguous before, keeps the promise. */
  lemma NeverSnoc(log: seq<Entry>, e: Entry)
    ensures NeverExchangedAgain(log + [e]) <==>
              NeverExchangedAgain(log) && !(e.Exchanged? && EnteredAmbiguous(e.code) in log)
  {
    var more := log + [e];
    assert forall k :: 0 <= k < |log| ==> more[k] == log[k];
    assert more[|log|] == e;
    if e.Exchanged? && EnteredAmbiguous(e.code) in log {
      var i :| 0 <= i < |log| && log[i] == EnteredAmbiguous(e.code);
      assert more[i] == EnteredAmbiguous(e.code) && more[|log|] == Exchanged(more[i].code, e.nonce);
    }
    if NeverExchangedAgain(more) {
      forall i, j, n: nat | 0 <= i < j < |log| && log[i].EnteredAmbiguous? ensures log[j] != Exchanged(log[i].code, n) {
        assert more[j] != Exchanged(more[i].code, n);
      }
    }
  }

  /** Entries none of which is an exchange. */
  lemma {:induction false} NeverExtends(log: seq<Entry>, more: seq<Entry>)
    requires forall e :: e in more ==> !e.Exchanged?
    ensures NeverExchangedAgain(log + more) <==> NeverExchangedAgain(log)
    decreases |more|
  {
    if more == [] {
      assert log + more == log;
    } else {
      NeverSnoc(log, more[0]);
      assert more[0] in more;
      NeverExtends(log + [more[0]], more[1..]);
      assert log + more == log + [more[0]] + more[1..];
    }
  }

  /** Beginning, and so mounting, adds no exchange to the log. */
  lemma BeginLogs(t: Tab, p: Page)
    ensures t.log <= Begin(t, p).log && forall x :: x in Begin(t, p).log[|t.log|..] ==> !x.Exchanged?
  {}

  lemma MountLogs(t: Tab, fragment: Option<nat>, freshNonce: nat)
    ensures t.log <= Mount(t, fragment, freshNonce).log
    ensures forall x :: x in Mount(t, fragment, freshNonce).log[|t.log|..] ==> !x.Exchanged?
  {
    match fragment
    case Some(code) =>
      var u := Linked(t, code, freshNonce);
      BeginLogs(u, u.page.value);
      var log := Begin(u, u.page.value).log;
      assert log[|t.log|..] == [Opened(code)] + log[|u.log|..];
    case None =>
      BeginLogs(Reloaded(t, freshNonce), Reloaded(t, freshNonce).page.value);
  }

  /** What a step adds to the log: one exchange when a reset lets it, and otherwise no exchange. */
  lemma ActLogs(t: Tab, e: Event) returns (more: seq<Entry>)
    ensures Act(t, e).log == t.log + more
    ensures if e.ResetSettled? && t.page.Some? && t.page.value.waiting == ForReset
               && (e.ok || t.page.value.staleSessionReset)
               && t.page.value.code.Some? && t.page.value.nonce.Some?
            then more == [Exchanged(t.page.value.code.value, t.page.value.nonce.value)]
            else forall x :: x in more ==> !x.Exchanged?
  {
    more := Act(t, e).log[|t.log|..];
    if e.Load? {
      MountLogs(t, e.fragment, e.freshNonce);
    } else if t.page.Some? && e.Retry? {
      BeginLogs(t, t.page.value);
    }
  }

  predicate KeepsPromise(t: Tab, e: Event) { !ReExchanges(t, e) }

  /** Each step of the run is as `p` says, in the state it meets. */
  ghost predicate AtEvery(p: (Tab, Event) -> bool, events: seq<Event>) {
    forall k :: 0 <= k < |events| ==> p(Run(events[..k]), events[k])
  }

  lemma AtEverySnoc(p: (Tab, Event) -> bool, front: seq<Event>, e: Event)
    ensures AtEvery(p, front + [e]) <==> AtEvery(p, front) && p(Run(front), e)
  {
    var events := front + [e];
    assert events[..|front|] == front && events[|front|] == e;
    forall k | 0 <= k < |front| ensures events[..k] == front[..k] && events[k] == front[k] {}
  }

  /** One step keeps the promise unless it exchanges a code that has been ambiguous. */
  lemma PromiseSnoc(t: Tab, e: Event)
    ensures NeverExchangedAgain(Act(t, e).log) <==> NeverExchangedAgain(t.log) && KeepsPromise(t, e)
  {
    var more := ActLogs(t, e);
    if more != [] && more[0].Exchanged? {
      assert more[0] in more;
      NeverSnoc(t.log, more[0]);
      assert more == [more[0]];
    } else {
      NeverExtends(t.log, more);
    }
  }

  /** What a step keeps exactly when it is as `p` says, a run keeps exactly when all its steps are. */
  lemma {:induction false} KeptStepwise(kept: Tab -> bool, p: (Tab, Event) -> bool, events: seq<Event>)
    requires kept(NEW_TAB) && forall t, e :: kept(Act(t, e)) <==> kept(t) && p(t, e)
    ensures kept(Run(events)) <==> AtEvery(p, events)
  {
    if events != [] {
      var front, e := events[..|events| - 1], events[|events| - 1];
      KeptStepwise(kept, p, front);
      assert events == front + [e];
      AtEverySnoc(p, front, e);
    }
  }

  ghost predicate PromiseKept(t: Tab) { NeverExchangedAgain(t.log) }

  /** Over every run: no exchange of a code follows its entry into the ambiguous state exactly when no step
      of the run exchanges a code that has been ambiguous. */
  lemma NeverExchangedAgainIff(events: seq<Event>)
    ensures NeverExchangedAgain(Run(events).log) <==> AtEvery(KeepsPromise, events)
  {
    forall t, e ensures PromiseKept(Act(t, e)) <==> PromiseKept(t) && KeepsPromise(t, e) { PromiseSnoc(t, e); }
    KeptStepwise(PromiseKept, KeepsPromise, events);
    assert PromiseKept(Run(events)) <==> NeverExchangedAgain(Run(events).log);
  }

  /** A link is opened while it was never ambiguous or while its record with progress is held. */
  predicate InTime(t: Tab, e: Event) {
    e.Load? && e.fragment.Some? && EnteredAmbiguous(e.fragment.value) in t.log ==> Holds(t, e.fragment.value)
  }

  /** The record in storage, and the page at work on it, know that their code has been ambiguous. */
  ghost predicate Remembered(t: Tab) {
    && (t.storage.code.Some? && EnteredAmbiguous(t.storage.code.value) in t.log ==> t.storage.auth.Some?)
    && (t.page.Some? && Live(t.page.value.waiting) && t.page.value.auth == NeedsExchange && t.page.value.code.Some? ==>
          EnteredAmbiguous(t.page.value.code.value) !in t.log)
  }

  lemma MountRemembers(t: Tab, fragment: Option<nat>, freshNonce: nat)
    requires Inv(t) && Remembered(t) && InTime(t, Load(fragment, freshNonce))
    ensures Remembered(Mount(t, fragment, freshNonce))
  {}

  lemma ActRemembers(t: Tab, e: Event)
    requires Inv(t) && Remembered(t) && InTime(t, e)
    ensures Remembered(Act(t, e)) && KeepsPromise(t, e)
  {
    if e.Load? { MountRemembers(t, e.fragment, e.freshNonce); }
  }

  lemma {:induction false} RunRemembers(events: seq<Event>)
    requires AtEvery(InTime, events)
    ensures Remembered(Run(events)) && AtEvery(KeepsPromise, events)
  {
    if events != [] {
      var front, e := events[..|events| - 1], events[|events| - 1];
      assert events == front + [e];
      AtEverySnoc(InTime, front, e);
      AtEverySnoc(KeepsPromise, front, e);
      RunRemembers(front);
      RunKeeps(front);
      ActRemembers(Run(front), e);
    }
  }

  /** Whatever else happens, the promise holds over a run that opens every link in time. */
  lemma OpenedInTimeSuffices(events: seq<Event>)
    requires AtEvery(InTime, events)
    ensures NeverExchangedAgain(Run(events).log)
  {
    RunRemembers(events);
    NeverExchangedAgainIff(events);
  }

  lemma OpenedAndExchanged(log: seq<Entry>, code: nat, n: nat)
    requires NeverExchangedAgain(log)
    ensures NeverExchangedAgain(log + [Opened(code)])
    ensures NeverExchangedAgain(log + [Opened(code), Exchanged(code, n)]) <==> EnteredAmbiguous(code) !in log
  {
    NeverSnoc(log, Opened(code));
    NeverSnoc(log + [Opened(code)], Exchanged(code, n));
    assert log + [Opened(code), Exchanged(code, n)] == log + [Opened(code)] + [Exchanged(code, n)];
  }

  /** What the run's log becomes when a link is opened and the reset acknowledged. */
  lemma OpeningAddsToRun(events: seq<Event>, code: nat, freshNonce: nat)
    ensures var t := Run(events);
            var asked := Run(events + [Load(Some(code), freshNonce)] + [ResetSettled(true)]).log;
            if Holds(t, code) then asked == t.log + [Opened(code)]
            else exists n: nat :: asked == t.log + [Opened(code), Exchanged(code, n)]
  {
    RunKeeps(events);
    RunSnoc(events, Load(Some(code), freshNonce));
    RunSnoc(events + [Load(Some(code), freshNonce)], ResetSettled(true));
    OpeningLogs(Run(events), code, freshNonce);
  }

  /** And a link opened too late is all it takes: once the reset is acknowledged the promise is kept exactly
      when the link was never ambiguous or its record with progress is held. */
  lemma OpeningKeepsPromiseIff(events: seq<Event>, code: nat, freshNonce: nat)
    requires NeverExchangedAgain(Run(events).log)
    ensures var t := Run(events);
            var asked := Run(events + [Load(Some(code), freshNonce)] + [ResetSettled(true)]).log;
            NeverExchangedAgain(asked) <==> EnteredAmbiguous(code) !in t.log || Holds(t, code)
  {
    var log := Run(events).log;
    var asked := Run(events + [Load(Some(code), freshNonce)] + [ResetSettled(true)]).log;
    OpeningAddsToRun(events, code, freshNonce);
    if Holds(Run(events), code) {
      OpenedAndExchanged(log, code, 0);
    } else {
      var n: nat :| asked == log + [Opened(code), Exchanged(code, n)];
      OpenedAndExchanged(log, code, n);
    }
  }

  /** A link goes through to the ambiguous state. */
  lemma FirstLink() returns (events: seq<Event>)
    ensures Run(events) == Tab(
              Storage(Some(1), Some(10), Some(Ambiguous), Some(Session(7, 8))),
              Some(Page(Some(1), Some(10), Some(5), Some(Session(7, 8)), Ambiguous, true, ForSignIn)),
              [Opened(1), Exchanged(1, 10), Received(1, 5, Session(7, 8)), EnteredAmbiguous(1), Submitted(1, Some(5))])
  {
    var e1, e2, e3 := Load(Some(1), 10), ResetSettled(true), ExchangeSettled(Issued(5, Session(7, 8)));
    events := [e1];
    RunSnoc([], e1);
    assert [] + [e1] == events;
    RunSnoc(events, e2);
    events := events + [e2];
    assert Run(events).log == [Opened(1), Exchanged(1, 10)];
    RunSnoc(events, e3);
    events := events + [e3];
    assert Run(events).log ==
             [Opened(1), Exchanged(1, 10), Received(1, 5, Session(7, 8)), EnteredAmbiguous(1), Submitted(1, Some(5))];
  }

  /** The promise fails when another link is opened in between: link 2 replaces the record of link 1, and
      link 1 opened once more is exchanged once more. */
  lemma AnotherLinkForgets()
    ensures exists events :: !NeverExchangedAgain(Run(events).log) && Cleared !in Run(events).log
  {
    var first := FirstLink();
    RunSnoc(first, Load(Some(2), 11));
    var events := first + [Load(Some(2), 11)];
    assert Run(events).log == Run(first).log + [Opened(2)] && Cleared !in Run(events).log;
    OpeningAgain(events, 12);
  }

  /** The bootstrap refuses the session of the first link, and its record is given up. */
  lemma RefusedLink() returns (events: seq<Event>)
    ensures Run(events).storage == EMPTY
    ensures Run(events).log == [Opened(1), Exchanged(1, 10), Received(1, 5, Session(7, 8)), EnteredAmbiguous(1),
                                Submitted(1, Some(5)), Cleared]
  {
    var first := FirstLink();
    RunSnoc(first, SignInSettled(true));
    var signedIn := first + [SignInSettled(true)];
    RunSnoc(signedIn, BootstrapSettled(Unauthorized));
    events := signedIn + [BootstrapSettled(Unauthorized)];
  }

  /** It fails without any other link when the record is given up: the link opened once more is exchanged
      once more. */
  lemma ClearedRecordForgets()
    ensures exists events ::
              !NeverExchangedAgain(Run(events).log) && forall code :: code != 1 ==> Opened(code) !in Run(events).log
  {
    var events := RefusedLink();
    OpeningAgain(events, 12);
  }

  /** Link 1 opened without its record, after it has been ambiguous. */
  lemma OpeningAgain(events: seq<Event>, freshNonce: nat)
    requires |Run(events).log| > 3 && Run(events).log[3] == EnteredAmbiguous(1) && !Holds(Run(events), 1)
    ensures var log := Run(events + [Load(Some(1), freshNonce)] + [ResetSettled(true)]).log;
            && !NeverExchangedAgain(log)
            && exists n: nat :: log == Run(events).log + [Opened(1), Exchanged(1, n)]
  {
    var t := Run(events);
    OpeningExchangesIff(events, 1, freshNonce);
    var log := Run(events + [Load(Some(1), freshNonce)] + [ResetSettled(true)]).log;
    var n: nat :| log == t.log + [Opened(1), Exchanged(1, n)];
    assert log[|t.log| + 1] == Exchanged(1, n) && log[3] == EnteredAmbiguous(1);
  }
}
