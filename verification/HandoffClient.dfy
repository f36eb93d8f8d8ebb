/**
 The handoff client itself: refs and session storage overwritten as the handoff advances, from wait to wait.
 Each method is the synchronous code up to the next wait, proved against the step of the state machine.
 */
module HandoffClient {
  import opened Wrappers
  import opened Handoff

  class Client {
    // Session storage.
    var storedCode: Option<nat>
    var storedNonce: Option<nat>
    var storedAuth: Option<AuthState>
    var storedExpected: Option<Session>

    // The refs of the mounted page.
    var mounted: bool
    var codeRef: Option<nat>
    var clientNonceRef: Option<nat>
    var ticketRef: Option<nat>
    var expectedSessionRef: Option<Session>
    var authStateRef: AuthState
    var staleSessionReset: bool
    var waiting: Waiting

    ghost var log: seq<Entry>

    ghost function State(): Tab
      reads this
    {
      Tab(Storage(storedCode, storedNonce, storedAuth, storedExpected),
          if mounted then Some(Page(codeRef, clientNonceRef, ticketRef, expectedSessionRef, authStateRef,
                                    staleSessionReset, waiting))
          else None,
          log)
    }

    constructor ()
      ensures State() == NEW_TAB
    {
      storedCode, storedNonce, storedAuth, storedExpected := None, None, None, None;
      mounted, codeRef, clientNonceRef, ticketRef, expectedSessionRef := false, None, None, None, None;
      authStateRef, staleSessionReset, waiting, log := NeedsExchange, false, ForReset, [];
    }

    method ClearStoredHandoffCode()
      modifies this
      ensures State() == old(State()).(storage := EMPTY, log := old(log) + [Cleared])
    {
      storedCode, storedNonce, storedAuth, storedExpected := None, None, None, None;
      log := log + [Cleared];
    }

    /** The ticket is submitted only after the ambiguous state is stored. */
    method SubmitTicket()
      requires mounted && codeRef.Some?
      modifies this
      ensures State() == Authenticate(old(State()), old(State()).page.value, old(codeRef).value)
    {
      authStateRef := Ambiguous;
      storedAuth := Some(authStateRef);
      log := log + [EnteredAmbiguous(codeRef.value), Submitted(codeRef.value, ticketRef)];
      waiting := ForSignIn;
    }

    /** completeHandoff up to its first wait. */
    method CompleteHandoff()
      requires mounted
      modifies this
      ensures State() == Begin(old(State()), old(State()).page.value)
    {
      if codeRef.None? || clientNonceRef.None? {
        ClearStoredHandoffCode();
        waiting := Resting(Invalid);
        return;
      }
      match authStateRef
      case NeedsExchange => waiting := ForReset;
      case NeedsAuthentication => SubmitTicket();
      case _ => waiting := ForBootstrap;
    }

    method OnReset(ok: bool)
      requires mounted && waiting == ForReset
      modifies this
      ensures State() == Act(old(State()), ResetSettled(ok))
    {
      if codeRef.None? || clientNonceRef.None? { return; }
      if !ok && !staleSessionReset {
        waiting := Resting(Retryable);
        return;
      }
      staleSessionReset := true;
      log := log + [Exchanged(codeRef.value, clientNonceRef.value)];
      waiting := ForExchange;
    }

    method OnExchange(reply: ExchangeReply)
      requires mounted && waiting == ForExchange
      modifies this
      ensures State() == Act(old(State()), ExchangeSettled(reply))
    {
      match reply
      case Gone =>
        ClearStoredHandoffCode();
        waiting := Resting(Expired);
      case BadRequest =>
        ClearStoredHandoffCode();
        waiting := Resting(Invalid);
      case Issued(ticket, session) =>
        if codeRef.None? { return; }
        ticketRef := Some(ticket);
        expectedSessionRef := Some(session);
        storedExpected := expectedSessionRef;
        authStateRef := NeedsAuthentication;
        log := log + [Received(codeRef.value, ticket, session)];
        SubmitTicket();
      case _ =>
        waiting := Resting(Retryable);
    }

    method OnSignIn(ok: bool)
      requires mounted && waiting == ForSignIn
      modifies this
      ensures State() == Act(old(State()), SignInSettled(ok))
    {
      if ok {
        authStateRef := Authenticated;
        storedAuth := Some(authStateRef);
      }
      waiting := ForBootstrap;
    }

    method OnBootstrap(reply: BootstrapReply)
      requires mounted && waiting == ForBootstrap
      modifies this
      ensures State() == Act(old(State()), BootstrapSettled(reply))
    {
      match reply
      case NotFoundOrGone =>
        ClearStoredHandoffCode();
        waiting := Resting(Expired);
      case Unauthorized =>
        ClearStoredHandoffCode();
        waiting := Resting(SessionFailed);
      case Ready(session, seedingThrows) =>
        if expectedSessionRef != Some(session) || codeRef.None? {
          ClearStoredHandoffCode();
          waiting := ForMismatchReset;
          return;
        }
        log := log + [Seeded(codeRef.value, session)];
        if seedingThrows {
          waiting := Resting(Retryable);
          return;
        }
        ClearStoredHandoffCode();
        waiting := Resting(InLobby);
      case _ =>
        waiting := Resting(Retryable);
    }

    /** The nonce is bound to its code: kept when the code is the stored one, fresh otherwise. */
    method BindCode(code: nat, freshNonce: nat)
      modifies `storedCode, `storedNonce, `codeRef, `clientNonceRef
      ensures storedCode == codeRef == Some(code)
      ensures storedNonce == clientNonceRef
      ensures clientNonceRef ==
                if old(storedCode) == Some(code) && old(storedNonce).Some? then old(storedNonce) else Some(freshNonce)
    {
      var resumesStoredCode := storedCode == Some(code);
      storedCode := Some(code);
      codeRef := storedCode;
      clientNonceRef := if resumesStoredCode && storedNonce.Some? then storedNonce else Some(freshNonce);
      storedNonce := clientNonceRef;
    }

    /** Stored progress is resumed with its code, and forgotten with any other. */
    method TakeProgress(resumesStoredCode: bool)
      modifies `storedAuth, `storedExpected, `authStateRef, `expectedSessionRef
      ensures if resumesStoredCode && old(storedAuth).Some?
              then
                && storedAuth == old(storedAuth) == Some(authStateRef)
                && storedExpected == old(storedExpected) == expectedSessionRef
              else storedAuth.None? && storedExpected.None? && authStateRef == NeedsExchange && expectedSessionRef.None?
    {
      if resumesStoredCode && storedAuth.Some? {
        authStateRef, expectedSessionRef := storedAuth.value, storedExpected;
      } else {
        authStateRef, expectedSessionRef := NeedsExchange, None;
        storedAuth, storedExpected := None, None;
      }
    }

    /** The mount effect of a page whose address holds a code; the refs of the page before are gone. */
    method TakeLink(code: nat, freshNonce: nat)
      modifies this
      ensures State() == Linked(old(State()), code, freshNonce)
    {
      var resumesStoredCode := storedCode == Some(code);
      BindCode(code, freshNonce);
      TakeProgress(resumesStoredCode);
      mounted, ticketRef, staleSessionReset, waiting := true, None, false, ForReset;
      log := log + [Opened(code)];
    }

    /** The mount effect of a page without one: what storage holds is taken up. */
    method TakeStored(freshNonce: nat)
      modifies this
      ensures State() == Reloaded(old(State()), freshNonce)
    {
      codeRef, clientNonceRef, expectedSessionRef := storedCode, storedNonce, storedExpected;
      authStateRef := if storedAuth.Some? then storedAuth.value else NeedsExchange;
      if codeRef.Some? && clientNonceRef.None? {
        clientNonceRef := Some(freshNonce);
        storedNonce := clientNonceRef;
      }
      mounted, ticketRef, staleSessionReset, waiting := true, None, false, ForReset;
    }

    method OnLoad(fragment: Option<nat>, freshNonce: nat)
      modifies this
      ensures State() == Mount(old(State()), fragment, freshNonce)
    {
      match fragment {
        case Some(code) => TakeLink(code, freshNonce);
        case None => TakeStored(freshNonce);
      }
      CompleteHandoff();
    }

    /** Any event: the client does what the state machine does. */
    method Handle(e: Event)
      modifies this
      ensures State() == Act(old(State()), e)
    {
      if e.Load? { OnLoad(e.fragment, e.freshNonce); return; }
      if !mounted { return; }
      match (e, waiting)
      case (ResetSettled(ok), ForReset) => OnReset(ok);
      case (ExchangeSettled(reply), ForExchange) => OnExchange(reply);
      case (SignInSettled(ok), ForSignIn) => OnSignIn(ok);
      case (BootstrapSettled(reply), ForBootstrap) => OnBootstrap(reply);
      case (MismatchResetSettled, ForMismatchReset) => waiting := Resting(SessionFailed);
      case (Retry, Resting(Retryable)) => CompleteHandoff();
      case _ =>
    }
  }

  /** A whole life of a tab: what the client has logged is the log of that run. */
  method Live(events: seq<Event>) returns (client: Client)
    ensures fresh(client) && client.State() == Run(events)
    ensures AllJustified(client.log)
  {
    client := new Client();
    var i := 0;
    assert events[..0] == [];
    while i < |events|
      invariant 0 <= i <= |events| && fresh(client) && client.State() == Run(events[..i])
    {
      assert events[..i + 1] == events[..i] + [events[i]];
      RunSnoc(events[..i], events[i]);
      client.Handle(events[i]);
      i := i + 1;
    }
    assert events[..i] == events;
    RunKeeps(events);
  }
}
