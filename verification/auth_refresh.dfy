/** The HTTP client's access-token refresh coordinator.

    JavaScript runs every interceptor segment to completion on one thread,
    so the coordinator is a sequential state machine: each request passing
    the request interceptor, each error reaching the response interceptor,
    and each completion of the refresh call is one atomic `Event`. A caller
    suspended on the refresh (a queued request, or the request that started
    the refresh) holds a `ticket`; its eventual outcome is recorded in
    `settled` under that ticket. */
module AuthRefresh {
  import opened Wrappers
  import opened JsText

  const RefreshPath: string := "/auth/refresh"
  const LoginPath: string := "/auth/login"

  function Bearer(token: string): string {
    "Bearer " + token
  }

  // ---------------------------------------------------------------------
  // Credential store: localStorage "accessToken" and "user", and the
  // "auth:logout" window event (counted).

  datatype Session = Session(accessToken: Option<string>, user: bool, logoutEvents: nat)

  /** `if (token)`: a stored token is used only when it is a non-empty string. */
  predicate HasToken(s: Session) {
    s.accessToken.Some? && s.accessToken.value != ""
  }

  /** `setToken`: a later read sees `t`; the user entry and the event count are untouched. */
  function SetToken(s: Session, t: string): (r: Session)
    ensures r.accessToken == Some(t)
    ensures r.user == s.user && r.logoutEvents == s.logoutEvents
  {
    s.(accessToken := Some(t))
  }

  /** `clearAuth`: removes both entries and fires exactly one logout event. */
  function ClearAuth(s: Session): (r: Session)
    ensures r.accessToken.None? && !r.user
    ensures r.logoutEvents == s.logoutEvents + 1
  {
    Session(None, false, s.logoutEvents + 1)
  }

  // ---------------------------------------------------------------------
  // Requests, errors and outcomes.

  /** A request configuration: its URL ("" when absent), the `_retry` mark
      and its own `Authorization` header, if any. */
  datatype Request = Request(url: string, retried: bool, authorization: Option<string>)

  /** An axios error: the failing request and the response status (None
      when no response arrived). */
  datatype HttpError = HttpError(config: Request, status: Option<int>)

  datatype Failure =
    | NoInternet                // "No internet connection"
    | Http(error: HttpError)    // the original error, passed on unchanged
    | NoAccessToken             // "No access token in response"
    | RefreshFailed(reason: string)

  datatype Waiter = Waiter(ticket: nat, request: Request)

  datatype Outcome = Resolved(token: string) | Rejected(failure: Failure)

  datatype Coordinator = Coordinator(
    isRefreshing: bool,
    failedQueue: seq<Waiter>,
    initiator: Option<Waiter>,             // the request whose 401 started the refresh in flight
    session: Session,
    defaultAuthorization: Option<string>,  // the instance's common `Authorization` default
    refreshCalls: nat,
    refreshesDone: nat,
    nextTicket: nat,
    settled: map<nat, Outcome>)

  datatype Event =
    | Send(request: Request, online: bool)
    | ResponseError(error: HttpError)
    | RefreshReturned(accessToken: Option<string>)  // the refresh response; None when it has no `accessToken`
    | RefreshThrew(reason: string)

  /** What the interceptor hands back to the caller of the triggering event. */
  datatype Reply =
    | Forward(authorization: Option<string>)  // the request goes out with this header
    | Reject(failure: Failure)
    | Suspend(ticket: nat)                    // the caller waits on the refresh
    | Done                                    // a refresh completion has no caller of its own

  datatype StepResult = StepResult(next: Coordinator, reply: Reply)

  function Init(session: Session): Coordinator {
    Coordinator(false, [], None, session, None, 0, 0, 0, map[])
  }

  // ---------------------------------------------------------------------
  // Request interceptor.

  /** The header the request carries into the interceptor: its own, else the instance default. */
  function MergedAuthorization(c: Coordinator, req: Request): Option<string> {
    if req.authorization.Some? then req.authorization else c.defaultAuthorization
  }

  function OnRequest(c: Coordinator, req: Request, online: bool): Reply {
    if !online then Reject(NoInternet)
    else if HasToken(c.session) then Forward(Some(Bearer(c.session.accessToken.value)))
    else Forward(MergedAuthorization(c, req))
  }

  // ---------------------------------------------------------------------
  // Response interceptor (error path).

  predicate IsFresh401(e: HttpError) {
    e.status == Some(401) && !e.config.retried
  }

  function OnResponseError(c: Coordinator, e: HttpError): StepResult {
    var req := e.config;
    if e.status.None? || e.status.value != 401 || req.retried then
      StepResult(c, Reject(Http(e)))
    else if Contains(req.url, RefreshPath) then
      StepResult(c.(session := ClearAuth(c.session)), Reject(Http(e)))
    else if Contains(req.url, LoginPath) then
      StepResult(c, Reject(Http(e)))
    else if c.isRefreshing then
      var w := Waiter(c.nextTicket, req);
      StepResult(c.(failedQueue := c.failedQueue + [w], nextTicket := c.nextTicket + 1), Suspend(w.ticket))
    else
      var w := Waiter(c.nextTicket, req.(retried := true));
      StepResult(
        c.(isRefreshing := true, initiator := Some(w), refreshCalls := c.refreshCalls + 1,
           nextTicket := c.nextTicket + 1),
        Suspend(w.ticket))
  }

  // ---------------------------------------------------------------------
  // Refresh completion.

  function Tickets(q: seq<Waiter>): set<nat> {
    set w | w in q :: w.ticket
  }

  /** `processQueue`: settles every queued waiter with the same outcome;
      entries settled earlier and not in the queue keep theirs. */
  function ProcessQueue(q: seq<Waiter>, o: Outcome, settled: map<nat, Outcome>): (r: map<nat, Outcome>)
    ensures r.Keys == settled.Keys + Tickets(q)
    ensures forall w :: w in q ==> r[w.ticket] == o
    ensures forall k :: k in settled && k !in Tickets(q) ==> r[k] == settled[k]
  {
    if q == [] then settled
    else
      assert Tickets(q) == {q[0].ticket} + Tickets(q[1..]) by {
        assert forall w :: w in q <==> w == q[0] || w in q[1..];
      }
      ProcessQueue(q[1..], o, settled[q[0].ticket := o])
  }

  /** Settles the queue and the initiating request with `o`, empties the
      queue and, as the `finally` block does, lowers the flag. */
  function Finish(c: Coordinator, o: Outcome): Coordinator {
    var drained := ProcessQueue(c.failedQueue, o, c.settled);
    c.(isRefreshing := false,
       failedQueue := [],
       initiator := None,
       refreshesDone := c.refreshesDone + 1,
       settled := if c.initiator.Some? then drained[c.initiator.value.ticket := o] else drained)
  }

  /** The refresh responded. `if (accessToken)`: a missing or empty token
      takes the failure path. A completion with no refresh in flight cannot
      arise and leaves the state alone. */
  function OnRefreshReturned(c: Coordinator, accessToken: Option<string>): StepResult {
    if !c.isRefreshing then StepResult(c, Done)
    else if accessToken.Some? && accessToken.value != "" then
      var t := accessToken.value;
      var stored := c.(session := SetToken(c.session, t), defaultAuthorization := Some(Bearer(t)));
      StepResult(Finish(stored, Resolved(t)), Done)
    else OnRefreshFailed(c, NoAccessToken)
  }

  /** The `catch` block: reject every waiter and the initiator, clear the session. */
  function OnRefreshFailed(c: Coordinator, f: Failure): StepResult {
    if !c.isRefreshing then StepResult(c, Done)
    else
      var finished := Finish(c, Rejected(f));
      StepResult(finished.(session := ClearAuth(finished.session)), Done)
  }

  function Step(c: Coordinator, e: Event): StepResult {
    match e
    case Send(req, online) => StepResult(c, OnRequest(c, req, online))
    case ResponseError(err) => OnResponseError(c, err)
    case RefreshReturned(t) => OnRefreshReturned(c, t)
    case RefreshThrew(reason) => OnRefreshFailed(c, RefreshFailed(reason))
  }

  function Run(c: Coordinator, trace: seq<Event>): Coordinator
    decreases |trace|
  {
    if trace == [] then c else Run(Step(c, trace[0]).next, trace[1..])
  }

  /** The request a settled waiter replays: its own configuration with the
      new bearer header (the initiator's also carries `_retry`). */
  function Replay(w: Waiter, token: string): Request {
    w.request.(authorization := Some(Bearer(token)))
  }

  // ---------------------------------------------------------------------
  // The invariant.

  ghost function Pending(c: Coordinator): set<nat> {
    Tickets(c.failedQueue) + (if c.initiator.Some? then {c.initiator.value.ticket} else {})
  }

  /** Every ticket handed out so far is pending or settled, and no other is. */
  ghost predicate Accounted(c: Coordinator) {
    forall k: nat :: k < c.nextTicket <==> k in Pending(c) || k in c.settled
  }

  ghost predicate DistinctTickets(q: seq<Waiter>) {
    forall i, j :: 0 <= i < j < |q| ==> q[i].ticket != q[j].ticket
  }

  /** The flag is up exactly while a refresh is in flight; the queue is
      empty otherwise; at most one refresh call is outstanding; every issued
      ticket is pending or settled, never both, and no ticket is pending twice. */
  ghost predicate Inv(c: Coordinator) {
    && (c.isRefreshing <==> c.initiator.Some?)
    && (!c.isRefreshing ==> c.failedQueue == [])
    && c.refreshCalls == c.refreshesDone + (if c.isRefreshing then 1 else 0)
    && (c.initiator.Some? ==> c.initiator.value.request.retried)
    && DistinctTickets(c.failedQueue)
    && (c.initiator.Some? ==> c.initiator.value.ticket !in Tickets(c.failedQueue))
    && Pending(c) !! c.settled.Keys
    && Accounted(c)
  }

  lemma InitInv(session: Session)
    ensures Inv(Init(session))
    ensures !Init(session).isRefreshing && Init(session).refreshCalls == 0
  {
  }

  lemma TicketsAppend(q: seq<Waiter>, w: Waiter)
    ensures Tickets(q + [w]) == Tickets(q) + {w.ticket}
  {
    assert forall x :: x in q + [w] <==> x in q || x == w;
  }

  lemma {:induction false} ResponseErrorInv(c: Coordinator, e: HttpError)
    requires Inv(c)
    ensures Inv(OnResponseError(c, e).next)
  {
    var r := OnResponseError(c, e);
    var c' := r.next;
    if c'.nextTicket == c.nextTicket + 1 {
      if c.isRefreshing {
        var w := Waiter(c.nextTicket, e.config);
        TicketsAppend(c.failedQueue, w);
        assert c'.failedQueue == c.failedQueue + [w];
        assert Pending(c') == Pending(c) + {c.nextTicket};
      } else {
        assert Pending(c') == {c.nextTicket};
      }
    } else {
      assert c'.failedQueue == c.failedQueue && c'.initiator == c.initiator && c'.settled == c.settled;
    }
  }

  lemma {:induction false} FinishInv(c: Coordinator, o: Outcome)
    requires Inv(c) && c.isRefreshing
    ensures Inv(Finish(c, o))
    ensures forall k: nat :: k < c.nextTicket <==> k in Finish(c, o).settled
  {
    var f := Finish(c, o);
    assert Pending(f) == {};
  }

  lemma {:induction false} StepInv(c: Coordinator, e: Event)
    requires Inv(c)
    ensures Inv(Step(c, e).next)
  {
    match e
    case Send(_, _) =>
    case ResponseError(err) => ResponseErrorInv(c, err);
    case RefreshReturned(t) =>
      if c.isRefreshing {
        if t.Some? && t.value != "" {
          var stored := c.(session := SetToken(c.session, t.value), defaultAuthorization := Some(Bearer(t.value)));
          assert Pending(stored) == Pending(c);
          FinishInv(stored, Resolved(t.value));
        } else {
          FinishInv(c, Rejected(NoAccessToken));
        }
      }
    case RefreshThrew(reason) =>
      if c.isRefreshing {
        FinishInv(c, Rejected(RefreshFailed(reason)));
      }
  }

  /** The invariant holds after any sequence of events from a fresh start. */
  lemma {:induction false} RunInv(c: Coordinator, trace: seq<Event>)
    requires Inv(c)
    ensures Inv(Run(c, trace))
    decreases |trace|
  {
    if trace != [] {
      StepInv(c, trace[0]);
      RunInv(Step(c, trace[0]).next, trace[1..]);
    }
  }

  // ---------------------------------------------------------------------
  // Request interceptor properties.

  /** Offline, the request is refused before any header is looked at.
      Online, the stored token supplies the header exactly when one is
      stored; otherwise the request keeps the header it came with, or the
      instance default. */
  lemma RequestInterceptor(c: Coordinator, req: Request, online: bool)
    ensures !online ==> OnRequest(c, req, online) == Reject(NoInternet)
    ensures online ==> OnRequest(c, req, online).Forward?
    ensures online && HasToken(c.session) ==>
      OnRequest(c, req, online).authorization == Some(Bearer(c.session.accessToken.value))
    ensures online && !HasToken(c.session) ==>
      OnRequest(c, req, online).authorization == MergedAuthorization(c, req)
  {
  }

  // ---------------------------------------------------------------------
  // Response interceptor, one lemma per branch.

  /** No response, a status other than 401, or a request already marked
      `_retry`: rejected unchanged, and nothing in the coordinator moves. */
  lemma PassThrough(c: Coordinator, e: HttpError)
    requires e.status.None? || e.status.value != 401 || e.config.retried
    ensures OnResponseError(c, e) == StepResult(c, Reject(Http(e)))
  {
  }

  /** A 401 from a URL containing "/auth/refresh" ends the session (one
      logout event) and is rejected; it is never queued and starts no
      refresh. The check runs before the login check. */
  lemma RefreshEndpointUnauthorized(c: Coordinator, e: HttpError)
    requires IsFresh401(e) && Contains(e.config.url, RefreshPath)
    ensures var r := OnResponseError(c, e);
      && r.reply == Reject(Http(e))
      && r.next.session.accessToken.None? && !r.next.session.user
      && r.next.session.logoutEvents == c.session.logoutEvents + 1
      && r.next == c.(session := r.next.session)
  {
  }

  /** A 401 from a URL containing "/auth/login" (and not the refresh URL)
      is rejected with the session left alone and no refresh. */
  lemma LoginUnauthorized(c: Coordinator, e: HttpError)
    requires IsFresh401(e) && !Contains(e.config.url, RefreshPath) && Contains(e.config.url, LoginPath)
    ensures OnResponseError(c, e) == StepResult(c, Reject(Http(e)))
  {
  }

  predicate Refreshable(e: HttpError) {
    IsFresh401(e) && !Contains(e.config.url, RefreshPath) && !Contains(e.config.url, LoginPath)
  }

  /** Single flight: while a refresh is in flight a 401 appends exactly one
      waiter, unmarked, and issues no refresh call. */
  lemma QueuedWhileRefreshing(c: Coordinator, e: HttpError)
    requires Refreshable(e) && c.isRefreshing
    ensures var r := OnResponseError(c, e);
      && r.reply == Suspend(c.nextTicket)
      && r.next.failedQueue == c.failedQueue + [Waiter(c.nextTicket, e.config)]
      && !r.next.failedQueue[|r.next.failedQueue| - 1].request.retried
      && r.next.refreshCalls == c.refreshCalls
      && r.next == c.(failedQueue := r.next.failedQueue, nextTicket := c.nextTicket + 1)
  {
  }

  /** With no refresh in flight, the failing request is marked `_retry`, the
      flag goes up and exactly one refresh call is made. */
  lemma StartsRefresh(c: Coordinator, e: HttpError)
    requires Refreshable(e) && !c.isRefreshing
    ensures var r := OnResponseError(c, e);
      && r.reply == Suspend(c.nextTicket)
      && r.next.isRefreshing
      && r.next.initiator == Some(Waiter(c.nextTicket, e.config.(retried := true)))
      && r.next.refreshCalls == c.refreshCalls + 1
      && r.next.failedQueue == c.failedQueue && r.next.session == c.session
  {
  }

  // ---------------------------------------------------------------------
  // Single flight over whole traces.

  /** A step makes at most one refresh call, and only from the idle state. */
  lemma RefreshOnlyFromIdle(c: Coordinator, e: Event)
    ensures Step(c, e).next.refreshCalls <= c.refreshCalls + 1
    ensures Step(c, e).next.refreshCalls == c.refreshCalls + 1 ==> !c.isRefreshing && Step(c, e).next.isRefreshing
  {
  }

  /** However the events interleave, calls made exceed calls completed by at most one. */
  lemma AtMostOneRefreshInFlight(c: Coordinator, trace: seq<Event>)
    requires Inv(c)
    ensures Run(c, trace).refreshCalls <= Run(c, trace).refreshesDone + 1
    ensures Run(c, trace).isRefreshing || Run(c, trace).refreshCalls == Run(c, trace).refreshesDone
  {
    RunInv(c, trace);
  }

  // ---------------------------------------------------------------------
  // Completion of the refresh.

  /** Success: the token is stored (and made the instance default), every
      pending caller is resolved with that same token and nothing settled
      before changes; the queue is empty and the flag is down. Every resolved
      caller's replay leaves with the new bearer. */
  lemma {:induction false} RefreshSucceeds(c: Coordinator, t: string)
    requires Inv(c) && c.isRefreshing && t != ""
    ensures var c' := OnRefreshReturned(c, Some(t)).next;
      && c'.session.accessToken == Some(t)
      && c'.session.user == c.session.user && c'.session.logoutEvents == c.session.logoutEvents
      && c'.defaultAuthorization == Some(Bearer(t))
      && !c'.isRefreshing && c'.failedQueue == [] && c'.initiator.None?
      && c'.refreshCalls == c.refreshCalls && c'.refreshesDone == c.refreshesDone + 1
      && (forall k :: k in Pending(c) ==> k in c'.settled && c'.settled[k] == Resolved(t))
      && (forall k :: k in c.settled ==> k in c'.settled && c'.settled[k] == c.settled[k])
      && (forall k :: k in c'.settled ==> k in c.settled || k in Pending(c))
      && (forall w :: w in c.failedQueue ==> OnRequest(c', Replay(w, t), true) == Forward(Some(Bearer(t))))
      && OnRequest(c', Replay(c.initiator.value, t), true) == Forward(Some(Bearer(t)))
      && Replay(c.initiator.value, t).retried
  {
    var stored := c.(session := SetToken(c.session, t), defaultAuthorization := Some(Bearer(t)));
    assert Pending(stored) == Pending(c);
    var c' := Finish(stored, Resolved(t));
    forall k | k in Pending(c) ensures k in c'.settled && c'.settled[k] == Resolved(t) {
      if k != c.initiator.value.ticket {
        var w :| w in c.failedQueue && w.ticket == k;
      }
    }
  }

  /** Failure (the call threw, or answered without a usable token): every
      pending caller is rejected with that error, nothing settled before
      changes, the session is cleared with one logout event, the queue is
      empty and the flag is down. */
  lemma {:induction false} RefreshFails(c: Coordinator, f: Failure)
    requires Inv(c) && c.isRefreshing
    ensures var c' := OnRefreshFailed(c, f).next;
      && c'.session.accessToken.None? && !c'.session.user
      && c'.session.logoutEvents == c.session.logoutEvents + 1
      && !c'.isRefreshing && c'.failedQueue == [] && c'.initiator.None?
      && c'.refreshCalls == c.refreshCalls && c'.refreshesDone == c.refreshesDone + 1
      && (forall k :: k in Pending(c) ==> k in c'.settled && c'.settled[k] == Rejected(f))
      && (forall k :: k in c.settled ==> k in c'.settled && c'.settled[k] == c.settled[k])
      && (forall k :: k in c'.settled ==> k in c.settled || k in Pending(c))
  {
    var c' := Finish(c, Rejected(f));
    forall k | k in Pending(c) ensures k in c'.settled && c'.settled[k] == Rejected(f) {
      if k != c.initiator.value.ticket {
        var w :| w in c.failedQueue && w.ticket == k;
      }
    }
  }

  /** A response without `accessToken`, or with an empty one, is handled as
      a failed refresh with "No access token in response". */
  lemma MissingTokenIsFailure(c: Coordinator, accessToken: Option<string>)
    requires accessToken.None? || accessToken.value == ""
    ensures OnRefreshReturned(c, accessToken) == OnRefreshFailed(c, NoAccessToken)
  {
  }

  // ---------------------------------------------------------------------
  // Exactly once.

  /** A settled caller is never settled again: its outcome survives every later step. */
  lemma {:induction false} SettledIsFinal(c: Coordinator, e: Event)
    requires Inv(c)
    ensures forall k :: k in c.settled ==> k in Step(c, e).next.settled && Step(c, e).next.settled[k] == c.settled[k]
  {
    match e
    case Send(_, _) =>
    case ResponseError(_) =>
    case RefreshReturned(t) =>
      if c.isRefreshing {
        if t.Some? && t.value != "" {
          RefreshSucceeds(c, t.value);
        } else {
          RefreshFails(c, NoAccessToken);
        }
      }
    case RefreshThrew(reason) =>
      if c.isRefreshing {
        RefreshFails(c, RefreshFailed(reason));
      }
  }

  lemma {:induction false} SettledIsFinalOverTraces(c: Coordinator, trace: seq<Event>)
    requires Inv(c)
    ensures forall k :: k in c.settled ==> k in Run(c, trace).settled && Run(c, trace).settled[k] == c.settled[k]
    decreases |trace|
  {
    if trace != [] {
      SettledIsFinal(c, trace[0]);
      StepInv(c, trace[0]);
      SettledIsFinalOverTraces(Step(c, trace[0]).next, trace[1..]);
    }
  }

  /** Nobody is left behind: whenever no refresh is in flight, every caller
      that ever waited has its outcome. */
  lemma IdleMeansAllSettled(c: Coordinator)
    requires Inv(c) && !c.isRefreshing
    ensures forall k: nat :: k < c.nextTicket ==> k in c.settled
  {
  }

  // ---------------------------------------------------------------------
  // Bursts of concurrent 401s.

  function Errors(es: seq<HttpError>): (r: seq<Event>)
    ensures |r| == |es|
    ensures forall i :: 0 <= i < |es| ==> r[i] == ResponseError(es[i])
  {
    if es == [] then [] else [ResponseError(es[0])] + Errors(es[1..])
  }

  lemma {:induction false} RunAppend(c: Coordinator, a: seq<Event>, b: seq<Event>)
    ensures Run(c, a + b) == Run(Run(c, a), b)
    decreases |a|
  {
    if a != [] {
      assert (a + b)[0] == a[0];
      assert (a + b)[1..] == a[1..] + b;
      RunAppend(Step(c, a[0]).next, a[1..], b);
    } else {
      assert a + b == b;
    }
  }

  /** While a refresh is in flight, any number of 401s are all queued, in
      arrival order, with no further refresh call. */
  lemma {:induction false} BurstIsQueued(c: Coordinator, es: seq<HttpError>)
    requires c.isRefreshing
    requires forall i :: 0 <= i < |es| ==> Refreshable(es[i])
    ensures var c' := Run(c, Errors(es));
      && c'.isRefreshing && c'.refreshCalls == c.refreshCalls
      && c'.initiator == c.initiator && c'.session == c.session && c'.settled == c.settled
      && c'.nextTicket == c.nextTicket + |es|
      && c'.failedQueue == c.failedQueue + seq(|es|, i requires 0 <= i < |es| => Waiter(c.nextTicket + i, es[i].config))
    decreases |es|
  {
    if es != [] {
      var c1 := Step(c, ResponseError(es[0])).next;
      QueuedWhileRefreshing(c, es[0]);
      assert Errors(es)[1..] == Errors(es[1..]);
      BurstIsQueued(c1, es[1..]);
      var tail := seq(|es| - 1, i requires 0 <= i < |es| - 1 => Waiter(c1.nextTicket + i, es[1..][i].config));
      var all := seq(|es|, i requires 0 <= i < |es| => Waiter(c.nextTicket + i, es[i].config));
      assert all == [Waiter(c.nextTicket, es[0].config)] + tail;
    } else {
      assert Errors(es) == [];
    }
  }

  /** N requests that all fail with 401 while the coordinator is idle, then
      one successful refresh returning `t`: exactly one refresh call, and all
      N callers resolved with `t`. */
  lemma {:induction false} ConcurrentFailuresThenSuccess(c: Coordinator, es: seq<HttpError>, t: string)
    requires Inv(c) && !c.isRefreshing && |es| >= 1 && t != ""
    requires forall i :: 0 <= i < |es| ==> Refreshable(es[i])
    ensures var c' := Run(c, Errors(es) + [RefreshReturned(Some(t))]);
      && c'.refreshCalls == c.refreshCalls + 1
      && c'.nextTicket == c.nextTicket + |es|
      && (forall k :: c.nextTicket <= k < c'.nextTicket ==> k in c'.settled && c'.settled[k] == Resolved(t))
      && c'.session.accessToken == Some(t) && !c'.isRefreshing && c'.failedQueue == []
  {
    var c1 := Step(c, ResponseError(es[0])).next;
    StartsRefresh(c, es[0]);
    StepInv(c, ResponseError(es[0]));
    assert Errors(es)[1..] == Errors(es[1..]);
    assert Run(c, Errors(es)) == Run(c1, Errors(es[1..]));
    BurstIsQueued(c1, es[1..]);
    var c2 := Run(c1, Errors(es[1..]));
    RunInv(c1, Errors(es[1..]));
    RunAppend(c, Errors(es), [RefreshReturned(Some(t))]);
    assert Run(c, Errors(es) + [RefreshReturned(Some(t))]) == OnRefreshReturned(c2, Some(t)).next;
    RefreshSucceeds(c2, t);
    forall k | c.nextTicket <= k < c2.nextTicket ensures k in Pending(c2) {
      if k == c.nextTicket {
        assert c2.initiator.value.ticket == k;
      } else {
        var w := c2.failedQueue[k - c.nextTicket - 1];
        assert w.ticket == k;
      }
    }
  }

  /** The same burst followed by a failed refresh: exactly one refresh call,
      all N callers rejected with the refresh error, the session cleared with
      a single logout event. */
  lemma {:induction false} ConcurrentFailuresThenRefreshFails(c: Coordinator, es: seq<HttpError>, reason: string)
    requires Inv(c) && !c.isRefreshing && |es| >= 1
    requires forall i :: 0 <= i < |es| ==> Refreshable(es[i])
    ensures var c' := Run(c, Errors(es) + [RefreshThrew(reason)]);
      && c'.refreshCalls == c.refreshCalls + 1
      && (forall k :: c.nextTicket <= k < c'.nextTicket ==> k in c'.settled && c'.settled[k] == Rejected(RefreshFailed(reason)))
      && c'.session.accessToken.None? && c'.session.logoutEvents == c.session.logoutEvents + 1
      && !c'.isRefreshing && c'.failedQueue == []
  {
    var c1 := Step(c, ResponseError(es[0])).next;
    StartsRefresh(c, es[0]);
    StepInv(c, ResponseError(es[0]));
    assert Errors(es)[1..] == Errors(es[1..]);
    assert Run(c, Errors(es)) == Run(c1, Errors(es[1..]));
    BurstIsQueued(c1, es[1..]);
    var c2 := Run(c1, Errors(es[1..]));
    RunInv(c1, Errors(es[1..]));
    RunAppend(c, Errors(es), [RefreshThrew(reason)]);
    assert Run(c, Errors(es) + [RefreshThrew(reason)]) == OnRefreshFailed(c2, RefreshFailed(reason)).next;
    RefreshFails(c2, RefreshFailed(reason));
    forall k | c.nextTicket <= k < c2.nextTicket ensures k in Pending(c2) {
      if k == c.nextTicket {
        assert c2.initiator.value.ticket == k;
      } else {
        var w := c2.failedQueue[k - c.nextTicket - 1];
        assert w.ticket == k;
      }
    }
  }
}
