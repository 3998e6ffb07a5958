/**
 Single-flight session refresh of the browser client (frontend/lib/auth-client.js).

 Any number of `apiJson` calls run concurrently.  They share three module variables, and control
 passes between them only where the code awaits.  The model is a transition system: every event
 runs the code between two awaits, and the answers of the server, the order of events and the
 passage of time are arbitrary.
 */
module RefreshProtocol {
  import opened Wrappers

  const REFRESH_GRACE_PERIOD_MS := 15000
  const COOKIE_SETTLE_MS := 50

  // ----- state -----

  /** The module variables.  A promise is named by its position among the refreshes created. */
  datatype Vars = Vars(inflight: Option<nat>, lastRefresh: int, csrf: string)

  datatype Progress = AwaitingResponse | AwaitingBody | Settled(ok: bool, at: int, token: string)

  /** One run of the refresh closure.  `threwEarly`: it threw before reaching its first await. */
  datatype Refresh = Refresh(startedAt: int, threwEarly: bool, progress: Progress)

  /** What `_tryRefreshSession` answers at once: true by the grace period, or a promise to wait for. */
  datatype Wait = Grace | Promise(id: nat)

  datatype Ticket = Ticket(wait: Wait, checkedAt: int)

  datatype Phase =
    | FirstFetch
    | Waiting(ticket: Ticket)
    | CookieDelay(ticket: Ticket, until: int)
    | RetryFetch(ticket: Ticket)
    | Done(last: Option<Ticket>, retried: bool, returned: bool)

  /** `posted`: this call is the one that sent a refresh POST. */
  datatype Call = Call(verb: string, path: string, posted: bool, phase: Phase)

  datatype Request = Fetch(call: nat, retry: bool) | RefreshPost(call: nat, id: nat)

  datatype World = World(now: int, vars: Vars, refreshes: seq<Refresh>, calls: seq<Call>, log: seq<Request>)

  datatype Answer = NetworkError | Response(status: int, csrfCode: bool)

  datatype Event =
    | Tick(ms: nat)
    | StartCall(verb: string, path: string)
    | Answered(call: nat, answer: Answer, throwsEarly: bool)
    | RefreshResponse(id: nat, ok: bool)
    | RefreshRejected(id: nat)
    | RefreshBody(id: nat, token: string)
    | Resume(call: nat)
    | Timer(call: nat)

  // ----- the code between awaits -----

  /** The paths that must never trigger a refresh. */
  predicate IsRefreshPath(path: string) {
    path == "/auth/sessions/refresh" || path == "/auth/sessions" || path == "/auth/challenges"
  }

  predicate IsGet(verb: string) {
    |verb| == 3 && verb[0] in "Gg" && verb[1] in "Ee" && verb[2] in "Tt"
  }

  predicate IsSessionGet(verb: string, path: string) {
    IsGet(verb) && ("/auth/" <= path || "/merchant/" <= path)
  }

  predicate Succeeded(a: Answer) {
    a.Response? && 200 <= a.status < 300
  }

  /** The `is401or403` flag. */
  predicate Unauthorized(a: Answer) {
    a.Response? && (a.status == 401 || (a.status == 403 && a.csrfCode))
  }

  /** Whether `apiJson` returns a payload instead of throwing. */
  predicate Returns(c: Call, a: Answer) {
    || Succeeded(a)
    || (a.Response? && IsSessionGet(c.verb, c.path) && a.status in {400, 401, 403})
  }

  datatype Begun = Begun(vars: Vars, wait: Wait, created: Option<Refresh>)

  /** `_tryRefreshSession` up to its first await.  When the closure throws before its own first
      await, its `finally` clears the variable first and the assignment of the promise comes last. */
  function TryRefresh(v: Vars, now: int, nextId: nat, throwsEarly: bool): Begun {
    if now - v.lastRefresh < REFRESH_GRACE_PERIOD_MS then Begun(v, Grace, None)
    else if v.inflight.Some? then Begun(v, Promise(v.inflight.value), None)
    else
      var progress := if throwsEarly then Settled(false, now, "") else AwaitingResponse;
      Begun(v.(inflight := Some(nextId)), Promise(nextId), Some(Refresh(now, throwsEarly, progress)))
  }

  /** The module variables after the refresh closure returned false. */
  function RefreshFailed(v: Vars): Vars {
    v.(inflight := None)
  }

  /** The module variables after the refresh closure returned true. */
  function RefreshSucceeded(v: Vars, now: int, token: string): Vars {
    v.(inflight := None, lastRefresh := now, csrf := if token != "" then token else v.csrf)
  }

  function Forgotten(v: Vars): Vars {
    v.(csrf := "")
  }

  /** The module variables as the source keeps them: updated in place, segment by segment. */
  class AuthClient {
    var inflightRefresh: Option<nat>
    var lastRefreshTime: int
    var cachedCsrfToken: string

    function Snapshot(): Vars
      reads this
    {
      Vars(inflightRefresh, lastRefreshTime, cachedCsrfToken)
    }

    constructor ()
      ensures Snapshot() == INITIAL
    {
      inflightRefresh, lastRefreshTime, cachedCsrfToken := None, 0, "";
    }

    method TryRefreshSession(now: int, nextId: nat, throwsEarly: bool) returns (wait: Wait, created: Option<Refresh>)
      modifies this
      ensures Begun(Snapshot(), wait, created) == TryRefresh(old(Snapshot()), now, nextId, throwsEarly)
    {
      if now - lastRefreshTime < REFRESH_GRACE_PERIOD_MS {
        return Grace, None;
      }
      if inflightRefresh.Some? {
        return Promise(inflightRefresh.value), None;
      }
      var progress := AwaitingResponse;
      if throwsEarly {
        progress := Settled(false, now, "");
        inflightRefresh := None;
      }
      inflightRefresh := Some(nextId);
      return Promise(nextId), Some(Refresh(now, throwsEarly, progress));
    }

    method FinishRefresh(ok: bool, now: int, token: string)
      modifies this
      ensures ok ==> Snapshot() == RefreshSucceeded(old(Snapshot()), now, token)
      ensures !ok ==> Snapshot() == RefreshFailed(old(Snapshot()))
    {
      if ok {
        if token != "" {
          cachedCsrfToken := token;
        }
        lastRefreshTime := now;
      }
      inflightRefresh := None;
    }

    method ForgetToken()
      modifies this
      ensures Snapshot() == Forgotten(old(Snapshot()))
    {
      cachedCsrfToken := "";
    }
  }

  // ----- transitions -----

  const INITIAL := Vars(None, 0, "")

  function Start(now: int): World {
    World(now, INITIAL, [], [], [])
  }

  predicate Pending(w: World, id: nat) {
    id < |w.refreshes| && !w.refreshes[id].progress.Settled?
  }

  predicate Enabled(w: World, e: Event) {
    match e
    case Tick(_) => true
    case StartCall(_, _) => true
    case Answered(i, _, _) => i < |w.calls| && (w.calls[i].phase.FirstFetch? || w.calls[i].phase.RetryFetch?)
    case RefreshResponse(id, _) => id < |w.refreshes| && w.refreshes[id].progress.AwaitingResponse?
    case RefreshRejected(id) => Pending(w, id)
    case RefreshBody(id, _) => id < |w.refreshes| && w.refreshes[id].progress.AwaitingBody?
    case Resume(i) =>
      && i < |w.calls| && w.calls[i].phase.Waiting?
      && (match w.calls[i].phase.ticket.wait
          case Grace => true
          case Promise(id) => id < |w.refreshes| && w.refreshes[id].progress.Settled?)
    case Timer(i) => i < |w.calls| && w.calls[i].phase.CookieDelay? && w.calls[i].phase.until <= w.now
  }

  function SetPhase(w: World, i: nat, p: Phase): World
    requires i < |w.calls|
  {
    w.(calls := w.calls[i := w.calls[i].(phase := p)])
  }

  function SetProgress(w: World, id: nat, p: Progress): World
    requires id < |w.refreshes|
  {
    w.(refreshes := w.refreshes[id := w.refreshes[id].(progress := p)])
  }

  /** A call ends: a final 401/403 also drops the cached token. */
  function Finish(w: World, i: nat, a: Answer, last: Option<Ticket>, retried: bool): World
    requires i < |w.calls|
  {
    var w1 := SetPhase(w, i, Done(last, retried, Returns(w.calls[i], a)));
    if Unauthorized(a) then w1.(vars := Forgotten(w.vars)) else w1
  }

  /** A first 401/403 enters `_tryRefreshSession`. */
  function EnterRefresh(w: World, i: nat, throwsEarly: bool): World
    requires i < |w.calls|
  {
    var id := |w.refreshes|;
    var b := TryRefresh(w.vars, w.now, id, throwsEarly);
    var posts := b.created.Some? && !throwsEarly;
    var c := w.calls[i].(posted := posts, phase := Waiting(Ticket(b.wait, w.now)));
    w.(vars := b.vars,
    refreshes := if b.created.Some? then w.refreshes + [b.created.value] else w.refreshes,
    calls := w.calls[i := c],
    log := if posts then w.log + [RefreshPost(i, id)] else w.log)
  }

  function OnAnswer(w: World, i: nat, a: Answer, throwsEarly: bool): World
    requires Enabled(w, Answered(i, a, throwsEarly))
  {
    var c := w.calls[i];
    match c.phase
    case RetryFetch(t) => Finish(w, i, a, Some(t), true)
    case _ =>
      if Unauthorized(a) && !IsRefreshPath(c.path) then EnterRefresh(w, i, throwsEarly)
      else Finish(w, i, a, None, false)
  }

  /** The caller continues after `await _tryRefreshSession()`. */
  function OnResume(w: World, i: nat): World
    requires Enabled(w, Resume(i))
  {
    var t := w.calls[i].phase.ticket;
    var refreshed := t.wait.Promise? ==> w.refreshes[t.wait.id].progress.ok;
    if refreshed then SetPhase(w, i, CookieDelay(t, w.now + COOKIE_SETTLE_MS))
    else Finish(w, i, Response(401, false), Some(t), false)
  }

  function Apply(w: World, e: Event): World
    requires Enabled(w, e)
  {
    match e
    case Tick(ms) => w.(now := w.now + ms)
    case StartCall(m, p) =>
      w.(calls := w.calls + [Call(m, p, false, FirstFetch)], log := w.log + [Fetch(|w.calls|, false)])
    case Answered(i, a, t) => OnAnswer(w, i, a, t)
    case RefreshResponse(id, ok) =>
      if ok then SetProgress(w, id, AwaitingBody)
      else SetProgress(w, id, Settled(false, w.now, "")).(vars := RefreshFailed(w.vars))
    case RefreshRejected(id) =>
      SetProgress(w, id, Settled(false, w.now, "")).(vars := RefreshFailed(w.vars))
    case RefreshBody(id, token) =>
      SetProgress(w, id, Settled(true, w.now, token)).(vars := RefreshSucceeded(w.vars, w.now, token))
    case Resume(i) => OnResume(w, i)
    case Timer(i) =>
      SetPhase(w, i, RetryFetch(w.calls[i].phase.ticket)).(log := w.log + [Fetch(i, true)])
  }

  /** A run: every event is enabled where it happens. */
  ghost predicate IsRun(w: World, es: seq<Event>)
    decreases |es|
  {
    es != [] ==> Enabled(w, es[0]) && IsRun(Apply(w, es[0]), es[1..])
  }

  ghost function After(w: World, es: seq<Event>): World
    requires IsRun(w, es)
    decreases |es|
  {
    if es == [] then w else After(Apply(w, es[0]), es[1..])
  }

  lemma Prepend(w: World, e: Event, es: seq<Event>)
    requires Enabled(w, e) && IsRun(Apply(w, e), es)
    ensures IsRun(w, [e] + es) && After(w, [e] + es) == After(Apply(w, e), es)
  {
    assert ([e] + es)[1..] == es;
  }

  // ----- what every step keeps -----

  predicate SucceededRefresh(w: World, id: nat) {
    id < |w.refreshes| && w.refreshes[id].progress.Settled? && w.refreshes[id].progress.ok
  }

  /** A refresh that succeeded less than the grace period before time `t`. */
  predicate RecentSuccess(w: World, id: nat, t: int) {
    && SucceededRefresh(w, id)
    && t - REFRESH_GRACE_PERIOD_MS < w.refreshes[id].progress.at <= t
  }

  /** The promise is the single unsettled one, or one whose closure threw early. */
  ghost predicate InflightSound(w: World) {
    && (forall id: nat :: Pending(w, id) ==> w.vars.inflight == Some(id))
    && (w.vars.inflight.Some? ==>
          var id := w.vars.inflight.value;
          id < |w.refreshes| && (Pending(w, id) || w.refreshes[id].threwEarly))
    && (forall id: nat :: id < |w.refreshes| && w.refreshes[id].threwEarly ==>
          && w.vars.inflight == Some(id) && !SucceededRefresh(w, id) && !Pending(w, id)
          && w.vars.lastRefresh + REFRESH_GRACE_PERIOD_MS <= w.refreshes[id].startedAt)
  }

  ghost predicate ClockSound(w: World) {
    && w.vars.lastRefresh <= w.now
    && (forall id: nat :: id < |w.refreshes| ==> w.refreshes[id].startedAt <= w.now)
    && (forall id: nat :: id < |w.refreshes| && w.refreshes[id].progress.Settled? ==>
          w.refreshes[id].startedAt <= w.refreshes[id].progress.at <= w.now)
    && (forall id: nat :: SucceededRefresh(w, id) ==> w.refreshes[id].progress.at <= w.vars.lastRefresh)
    && LastRefreshSound(w)
  }

  ghost predicate LastRefreshSound(w: World) {
    w.vars.lastRefresh != 0 ==>
      exists id: nat :: SucceededRefresh(w, id) && w.refreshes[id].progress.at == w.vars.lastRefresh
  }

  /** Refreshes do not overlap, and after a success the next one starts a grace period later. */
  ghost predicate Spaced(w: World) {
    forall i: nat, j: nat :: i < j < |w.refreshes| ==> Before(w.refreshes[i], w.refreshes[j])
  }

  predicate Before(a: Refresh, b: Refresh) {
    && a.progress.Settled?
    && a.progress.at <= b.startedAt
    && (a.progress.ok ==> a.progress.at + REFRESH_GRACE_PERIOD_MS <= b.startedAt)
  }

  /** What a ticket of a call that went on to retry proves about the refreshes. */
  ghost predicate Justified(w: World, t: Ticket) {
    match t.wait
    case Grace => exists id: nat :: RecentSuccess(w, id, t.checkedAt)
    case Promise(id) => SucceededRefresh(w, id) && t.checkedAt <= w.refreshes[id].progress.at <= w.now
  }

  /** The same, unless the grace test came so early that the initial refresh time 0 counted as recent. */
  ghost predicate Excused(w: World, t: Ticket) {
    Justified(w, t) || (t.wait.Grace? && t.checkedAt < REFRESH_GRACE_PERIOD_MS)
  }

  ghost predicate Refused(w: World, t: Ticket) {
    && t.wait.Promise? && t.wait.id < |w.refreshes|
    && w.refreshes[t.wait.id].progress.Settled? && !w.refreshes[t.wait.id].progress.ok
  }

  ghost predicate WaitSound(w: World, t: Ticket) {
    && t.checkedAt <= w.now
    && (match t.wait
        case Grace => Excused(w, t)
        case Promise(id) =>
          && id < |w.refreshes|
          && (SucceededRefresh(w, id) ==> t.checkedAt <= w.refreshes[id].progress.at))
  }

  ghost predicate CallSound(w: World, c: Call) {
    match c.phase
    case FirstFetch => !c.posted
    case Waiting(t) => WaitSound(w, t)
    case CookieDelay(t, _) => Excused(w, t)
    case RetryFetch(t) => Excused(w, t)
    case Done(last, retried, _) =>
      && (retried ==> last.Some? && Excused(w, last.value))
      && (!retried && last.Some? ==> Refused(w, last.value))
      && (last.None? ==> !c.posted)
  }

  ghost predicate CallsSound(w: World) {
    forall i: nat :: i < |w.calls| ==> CallSound(w, w.calls[i])
  }

  /** The cached token is the one the most recent token-bearing success brought, unless dropped. */
  ghost predicate TokenSound(w: World) {
    w.vars.csrf != "" ==>
      exists id: nat :: IsLatestToken(w, id) && w.refreshes[id].progress.token == w.vars.csrf
  }

  ghost predicate IsLatestToken(w: World, id: nat) {
    && SucceededRefresh(w, id) && w.refreshes[id].progress.token != ""
    && forall j: nat :: id < j && SucceededRefresh(w, j) ==> w.refreshes[j].progress.token == ""
  }

  function Requests(c: Call): nat {
    1 + (if c.posted then 1 else 0) + (if Retried(c) then 1 else 0)
  }

  function TotalRequests(calls: seq<Call>): nat {
    if calls == [] then 0 else Requests(calls[0]) + TotalRequests(calls[1..])
  }

  ghost predicate Sound(w: World) {
    && InflightSound(w) && ClockSound(w) && Spaced(w) && CallsSound(w) && TokenSound(w)
    && |w.log| == TotalRequests(w.calls) && LogSound(w)
  }

  predicate Retried(c: Call) {
    c.phase.RetryFetch? || (c.phase.Done? && c.phase.retried)
  }

  predicate RequestSound(w: World, r: Request) {
    match r
    case Fetch(i, retry) => i < |w.calls| && (retry ==> Retried(w.calls[i]))
    case RefreshPost(i, id) => i < |w.calls| && id < |w.refreshes| && w.calls[i].posted && !w.refreshes[id].threwEarly
  }

  /** Every request in the log belongs to a call that is entitled to it. */
  ghost predicate LogSound(w: World) {
    forall k: nat :: k < |w.log| ==> RequestSound(w, w.log[k])
  }

  lemma {:induction false} TotalRequestsUpdate(calls: seq<Call>, i: nat, c: Call)
    requires i < |calls|
    ensures TotalRequests(calls[i := c]) == TotalRequests(calls) - Requests(calls[i]) + Requests(c)
  {
    if i == 0 {
      assert calls[i := c][1..] == calls[1..];
    } else {
      assert calls[i := c][1..] == calls[1..][i - 1 := c];
      TotalRequestsUpdate(calls[1..], i - 1, c);
    }
  }

  lemma {:induction false} TotalRequestsAppend(calls: seq<Call>, c: Call)
    ensures TotalRequests(calls + [c]) == TotalRequests(calls) + Requests(c)
  {
    if calls == [] {
      assert calls + [c] == [c];
    } else {
      assert (calls + [c])[1..] == calls[1..] + [c];
      TotalRequestsAppend(calls[1..], c);
    }
  }

  /** Settled refreshes stay as they are; nothing else about the past can change. */
  ghost predicate Extends(w: World, v: World) {
    && w.now <= v.now && |w.refreshes| <= |v.refreshes|
    && forall id: nat :: id < |w.refreshes| && w.refreshes[id].progress.Settled? ==> v.refreshes[id] == w.refreshes[id]
  }

  /** A promise settles no earlier than every ticket that is waiting for it was taken. */
  ghost predicate SettlesNow(w: World, v: World) {
    forall id: nat :: Pending(w, id) && id < |v.refreshes| && v.refreshes[id].progress.Settled? ==>
      v.refreshes[id].progress.at == v.now
  }

  lemma CallStaysSound(w: World, v: World, c: Call)
    requires Extends(w, v) && SettlesNow(w, v) && CallSound(w, c)
    ensures CallSound(v, c)
  {
    forall id: nat, t | RecentSuccess(w, id, t) ensures RecentSuccess(v, id, t) {}
  }

  lemma GraceStays(w: World, v: World, t: Ticket)
    requires t.wait.Grace? && Excused(w, t)
    requires forall id: nat :: SucceededRefresh(w, id) ==> id < |v.refreshes| && v.refreshes[id] == w.refreshes[id]
    ensures Excused(v, t)
  {
    if id: nat :| RecentSuccess(w, id, t.checkedAt) {
      assert RecentSuccess(v, id, t.checkedAt);
    }
  }

  lemma FinishKeepsSound(w: World, i: nat, a: Answer, last: Option<Ticket>, retried: bool)
    requires Sound(w) && i < |w.calls|
    requires retried ==> last.Some? && Excused(w, last.value) && w.calls[i].phase.RetryFetch?
    requires !retried && last.Some? ==> Refused(w, last.value)
    requires last.None? ==> !w.calls[i].posted
    requires !retried ==> !w.calls[i].phase.RetryFetch? && !w.calls[i].phase.Done?
    ensures Sound(Finish(w, i, a, last, retried))
  {
    var v := Finish(w, i, a, last, retried);
    TotalRequestsUpdate(w.calls, i, v.calls[i]);
    FinishKeepsCalls(w, i, a, last, retried);
    SameRefreshes(w, v);
  }

  lemma FinishKeepsCalls(w: World, i: nat, a: Answer, last: Option<Ticket>, retried: bool)
    requires Sound(w) && i < |w.calls|
    requires retried ==> last.Some? && Excused(w, last.value) && w.calls[i].phase.RetryFetch?
    requires !retried && last.Some? ==> Refused(w, last.value)
    requires last.None? ==> !w.calls[i].posted
    ensures CallsSound(Finish(w, i, a, last, retried))
  {
    var v := Finish(w, i, a, last, retried);
    forall j: nat | j < |v.calls| ensures CallSound(v, v.calls[j]) {
      if j != i {
        CallStaysSound(w, v, w.calls[j]);
      } else if retried {
        assert Excused(v, last.value) by {
          forall id: nat, t | RecentSuccess(w, id, t) ensures RecentSuccess(v, id, t) {}
        }
      }
    }
  }

  /** What is known about successes survives a step that leaves them alone. */
  lemma SuccessesCarryOver(w: World, v: World)
    requires LastRefreshSound(w) && TokenSound(w)
    requires forall id: nat :: SucceededRefresh(v, id) == SucceededRefresh(w, id)
    requires |w.refreshes| <= |v.refreshes|
    requires forall id: nat :: SucceededRefresh(w, id) ==> v.refreshes[id] == w.refreshes[id]
    requires v.vars.lastRefresh == w.vars.lastRefresh && v.vars.csrf in {"", w.vars.csrf}
    ensures LastRefreshSound(v) && TokenSound(v)
  {
    if w.vars.lastRefresh != 0 {
      var id: nat :| SucceededRefresh(w, id) && w.refreshes[id].progress.at == w.vars.lastRefresh;
      assert SucceededRefresh(v, id);
    }
    if v.vars.csrf != "" {
      var id: nat :| IsLatestToken(w, id) && w.refreshes[id].progress.token == w.vars.csrf;
      assert IsLatestToken(v, id);
    }
  }

  /** The facts about refreshes survive a step that touches neither them nor the promise. */
  lemma SameRefreshes(w: World, v: World)
    requires Sound(w)
    requires v.refreshes == w.refreshes && w.now <= v.now
    requires v.vars.inflight == w.vars.inflight && v.vars.lastRefresh == w.vars.lastRefresh
    requires v.vars.csrf in {"", w.vars.csrf}
    ensures InflightSound(v) && ClockSound(v) && Spaced(v) && TokenSound(v)
  {
    forall id: nat ensures Pending(v, id) == Pending(w, id) && SucceededRefresh(v, id) == SucceededRefresh(w, id) {}
    SuccessesCarryOver(w, v);
  }

  lemma TickKeepsSound(w: World, ms: nat)
    requires Sound(w)
    ensures Sound(Apply(w, Tick(ms)))
  {
    var v := Apply(w, Tick(ms));
    SameRefreshes(w, v);
    forall j: nat | j < |v.calls| ensures CallSound(v, v.calls[j]) {
      CallStaysSound(w, v, w.calls[j]);
    }
  }

  lemma StartCallKeepsSound(w: World, verb: string, path: string)
    requires Sound(w)
    ensures Sound(Apply(w, StartCall(verb, path)))
  {
    var v := Apply(w, StartCall(verb, path));
    SameRefreshes(w, v);
    TotalRequestsAppend(w.calls, Call(verb, path, false, FirstFetch));
    forall j: nat | j < |v.calls| ensures CallSound(v, v.calls[j]) {
      if j < |w.calls| {
        CallStaysSound(w, v, w.calls[j]);
      }
    }
  }

  lemma EnterRefreshKeepsCalls(w: World, i: nat, throwsEarly: bool)
    requires Sound(w) && i < |w.calls| && w.calls[i].phase.FirstFetch?
    ensures CallsSound(EnterRefresh(w, i, throwsEarly))
  {
    var v := EnterRefresh(w, i, throwsEarly);
    var b := TryRefresh(w.vars, w.now, |w.refreshes|, throwsEarly);
    forall j: nat | j < |v.calls| ensures CallSound(v, v.calls[j]) {
      if j != i {
        CallStaysSound(w, v, w.calls[j]);
      } else if b.wait.Grace? {
        if w.vars.lastRefresh != 0 {
          var id: nat :| SucceededRefresh(w, id) && w.refreshes[id].progress.at == w.vars.lastRefresh;
          assert RecentSuccess(v, id, w.now);
        }
        assert Excused(v, Ticket(Grace, w.now));
      }
    }
  }

  lemma EnterRefreshKeepsSound(w: World, i: nat, throwsEarly: bool)
    requires Sound(w) && i < |w.calls| && w.calls[i].phase.FirstFetch?
    ensures Sound(EnterRefresh(w, i, throwsEarly))
  {
    var v := EnterRefresh(w, i, throwsEarly);
    TotalRequestsUpdate(w.calls, i, v.calls[i]);
    EnterRefreshKeepsCalls(w, i, throwsEarly);
    if TryRefresh(w.vars, w.now, |w.refreshes|, throwsEarly).created.None? {
      SameRefreshes(w, v);
    } else {
      NewRefreshKeepsSound(w, v);
    }
  }

  lemma NewRefreshKeepsSound(w: World, v: World)
    requires Sound(w) && v.now == w.now
    requires REFRESH_GRACE_PERIOD_MS <= w.now - w.vars.lastRefresh && w.vars.inflight.None?
    requires v.vars == w.vars.(inflight := Some(|w.refreshes|))
    requires |v.refreshes| == |w.refreshes| + 1 && v.refreshes[..|w.refreshes|] == w.refreshes
    requires v.refreshes[|w.refreshes|] in {Refresh(w.now, true, Settled(false, w.now, "")),
        Refresh(w.now, false, AwaitingResponse)}
    ensures InflightSound(v) && ClockSound(v) && Spaced(v) && TokenSound(v)
    ensures Extends(w, v) && SettlesNow(w, v)
  {
    var n := |w.refreshes|;
    forall id: nat | id < n ensures v.refreshes[id] == w.refreshes[id] && v.refreshes[id].progress.Settled? {
      assert v.refreshes[id] == v.refreshes[..n][id];
      assert !Pending(w, id);
    }
    forall id: nat ensures SucceededRefresh(v, id) == SucceededRefresh(w, id) {}
    SuccessesCarryOver(w, v);
    NewRefreshIsInflight(w, v);
    NewRefreshIsSpaced(w, v);
  }

  lemma NewRefreshIsInflight(w: World, v: World)
    requires InflightSound(w) && w.vars.inflight.None? && REFRESH_GRACE_PERIOD_MS <= w.now - w.vars.lastRefresh
    requires v.vars == w.vars.(inflight := Some(|w.refreshes|))
    requires |v.refreshes| == |w.refreshes| + 1
        && forall id: nat :: id < |w.refreshes| ==> v.refreshes[id] == w.refreshes[id]
    requires v.refreshes[|w.refreshes|] in {Refresh(w.now, true, Settled(false, w.now, "")),
        Refresh(w.now, false, AwaitingResponse)}
    ensures InflightSound(v)
  {
    var n := |w.refreshes|;
    forall id: nat | id < n ensures !Pending(v, id) && !v.refreshes[id].threwEarly {
      assert !Pending(w, id) && v.refreshes[id] == w.refreshes[id];
    }
    assert Pending(v, n) || v.refreshes[n].threwEarly;
  }

  lemma NewRefreshIsSpaced(w: World, v: World)
    requires Spaced(w) && ClockSound(w) && REFRESH_GRACE_PERIOD_MS <= w.now - w.vars.lastRefresh
    requires |v.refreshes| == |w.refreshes| + 1
        && forall id: nat :: id < |w.refreshes| ==> v.refreshes[id] == w.refreshes[id]
    requires forall id: nat :: id < |w.refreshes| ==> v.refreshes[id].progress.Settled?
    requires v.refreshes[|w.refreshes|].startedAt == w.now
    ensures Spaced(v)
  {
    var n := |w.refreshes|;
    forall i: nat, j: nat | i < j < |v.refreshes| ensures Before(v.refreshes[i], v.refreshes[j]) {
      assert v.refreshes[i] == w.refreshes[i];
      if j == n {
        assert v.refreshes[i].progress.ok ==> SucceededRefresh(w, i);
      } else {
        assert Before(w.refreshes[i], w.refreshes[j]);
      }
    }
  }

  /** The refresh closure finishes, it was the promise: a refresh is settled with this progress, and the
      shared variables change as its answer says. */
  ghost predicate Settles(w: World, v: World, id: nat, p: Progress) {
    && Sound(w) && Pending(w, id) && p.Settled? && p.at == w.now
    && v == SetProgress(w, id, p).(vars := if p.ok then RefreshSucceeded(w.vars, w.now, p.token)
        else RefreshFailed(w.vars))
  }

  lemma SettledOthers(w: World, v: World, id: nat, p: Progress)
    requires Settles(w, v, id, p)
    ensures w.vars.inflight == Some(id) && id == |w.refreshes| - 1
    ensures SucceededRefresh(v, id) <==> p.ok
    ensures forall j: nat :: j != id ==>
        Pending(v, j) == Pending(w, j) && SucceededRefresh(v, j) == SucceededRefresh(w, j)
  {
    LastIsPending(w, id);
  }

  lemma SettledTokenSound(w: World, v: World, id: nat, p: Progress)
    requires Settles(w, v, id, p)
    ensures TokenSound(v)
  {
    SettledOthers(w, v, id, p);
    if p.ok && p.token != "" {
      assert IsLatestToken(v, id);
    } else if v.vars.csrf != "" {
      var j: nat :| IsLatestToken(w, j) && w.refreshes[j].progress.token == w.vars.csrf;
      assert IsLatestToken(v, j);
    }
  }

  lemma SettledClockSound(w: World, v: World, id: nat, p: Progress)
    requires Settles(w, v, id, p)
    ensures ClockSound(v)
  {
    SettledOthers(w, v, id, p);
    if p.ok {
      assert SucceededRefresh(v, id);
    } else if w.vars.lastRefresh != 0 {
      var j: nat :| SucceededRefresh(w, j) && w.refreshes[j].progress.at == w.vars.lastRefresh;
      assert SucceededRefresh(v, j);
    }
  }

  lemma SettledCallsSound(w: World, v: World, id: nat, p: Progress)
    requires Settles(w, v, id, p)
    ensures CallsSound(v)
  {
    forall j: nat | j < |v.calls| ensures CallSound(v, v.calls[j]) {
      CallStaysSound(w, v, w.calls[j]);
    }
  }

  lemma SettleKeepsSound(w: World, id: nat, p: Progress, vars: Vars)
    requires Sound(w) && Pending(w, id)
    requires p.Settled? && p.at == w.now
    requires vars == if p.ok then RefreshSucceeded(w.vars, w.now, p.token) else RefreshFailed(w.vars)
    ensures Sound(SetProgress(w, id, p).(vars := vars))
  {
    var v := SetProgress(w, id, p).(vars := vars);
    SettledOthers(w, v, id, p);
    SettledTokenSound(w, v, id, p);
    SettledClockSound(w, v, id, p);
    SettledCallsSound(w, v, id, p);
  }

  lemma LastIsPending(w: World, id: nat)
    requires Spaced(w) && Pending(w, id)
    ensures id == |w.refreshes| - 1
  {
    assert id < |w.refreshes| - 1 ==> Before(w.refreshes[id], w.refreshes[|w.refreshes| - 1]);
  }

  lemma BodyArrivingKeepsSound(w: World, id: nat)
    requires Sound(w) && id < |w.refreshes| && w.refreshes[id].progress.AwaitingResponse?
    ensures Sound(SetProgress(w, id, AwaitingBody))
  {
    var v := SetProgress(w, id, AwaitingBody);
    assert Pending(w, id);
    forall j: nat ensures Pending(v, j) == Pending(w, j) && SucceededRefresh(v, j) == SucceededRefresh(w, j) {}
    forall j: nat | j < |v.calls| ensures CallSound(v, v.calls[j]) {
      CallStaysSound(w, v, w.calls[j]);
    }
    LastIsPending(w, id);
    SuccessesCarryOver(w, v);
  }

  lemma ResumeKeepsSound(w: World, i: nat)
    requires Sound(w) && Enabled(w, Resume(i))
    ensures Sound(Apply(w, Resume(i)))
  {
    var v := Apply(w, Resume(i));
    var t := w.calls[i].phase.ticket;
    assert CallSound(w, w.calls[i]);
    if t.wait.Promise? && !w.refreshes[t.wait.id].progress.ok {
      FinishKeepsSound(w, i, Response(401, false), Some(t), false);
    } else {
      SameRefreshes(w, v);
      TotalRequestsUpdate(w.calls, i, v.calls[i]);
      ResumeKeepsCalls(w, i);
    }
  }

  lemma ResumeKeepsCalls(w: World, i: nat)
    requires Sound(w) && Enabled(w, Resume(i))
    requires var t := w.calls[i].phase.ticket; t.wait.Promise? ==> w.refreshes[t.wait.id].progress.ok
    ensures CallsSound(Apply(w, Resume(i)))
  {
    var v := Apply(w, Resume(i));
    var t := w.calls[i].phase.ticket;
    assert CallSound(w, w.calls[i]);
    forall j: nat | j < |v.calls| ensures CallSound(v, v.calls[j]) {
      if j != i {
        CallStaysSound(w, v, w.calls[j]);
      } else if t.wait.Promise? {
        assert SucceededRefresh(w, t.wait.id);
      } else {
        GraceStays(w, v, t);
      }
    }
  }

  lemma TimerKeepsSound(w: World, i: nat)
    requires Sound(w) && Enabled(w, Timer(i))
    ensures Sound(Apply(w, Timer(i)))
  {
    var v := Apply(w, Timer(i));
    SameRefreshes(w, v);
    TotalRequestsUpdate(w.calls, i, v.calls[i]);
    TimerKeepsCalls(w, i);
  }

  lemma TimerKeepsCalls(w: World, i: nat)
    requires Sound(w) && Enabled(w, Timer(i))
    ensures CallsSound(Apply(w, Timer(i)))
  {
    var v := Apply(w, Timer(i));
    assert CallSound(w, w.calls[i]);
    forall j: nat | j < |v.calls| ensures CallSound(v, v.calls[j]) {
      if j != i {
        CallStaysSound(w, v, w.calls[j]);
      } else if w.calls[i].phase.ticket.wait.Grace? {
        var t := w.calls[i].phase.ticket;
        GraceStays(w, v, t);
      }
    }
  }

  lemma StepKeepsSound(w: World, e: Event)
    requires Sound(w) && Enabled(w, e)
    ensures Sound(Apply(w, e))
  {
    match e
    case Tick(ms) => TickKeepsSound(w, ms);
    case StartCall(verb, path) => StartCallKeepsSound(w, verb, path);
    case Answered(i, a, throwsEarly) =>
      var c := w.calls[i];
      assert CallSound(w, c);
      if c.phase.RetryFetch? {
        FinishKeepsSound(w, i, a, Some(c.phase.ticket), true);
      } else if Unauthorized(a) && !IsRefreshPath(c.path) {
        EnterRefreshKeepsSound(w, i, throwsEarly);
      } else {
        FinishKeepsSound(w, i, a, None, false);
      }
    case RefreshResponse(id, ok) =>
      if ok {
        BodyArrivingKeepsSound(w, id);
      } else {
        SettleKeepsSound(w, id, Settled(false, w.now, ""), RefreshFailed(w.vars));
      }
    case RefreshRejected(id) => SettleKeepsSound(w, id, Settled(false, w.now, ""), RefreshFailed(w.vars));
    case RefreshBody(id, token) => SettleKeepsSound(w, id, Settled(true, w.now, token),
        RefreshSucceeded(w.vars, w.now, token));
    case Resume(i) => ResumeKeepsSound(w, i);
    case Timer(i) => TimerKeepsSound(w, i);
  }

  /** Main invariant: it holds after every run, whatever the interleaving and the answers. */
  lemma {:induction false} RunsAreSound(w: World, es: seq<Event>)
    requires Sound(w) && IsRun(w, es)
    ensures Sound(After(w, es))
    decreases |es|
  {
    if es != [] {
      StepKeepsSound(w, es[0]);
      RunsAreSound(Apply(w, es[0]), es[1..]);
    }
  }

  // ----- main results over runs -----

  /** At most one refresh POST is outstanding, and it is the one the promise variable names. */
  lemma SingleFlight(now: nat, es: seq<Event>, i: nat, j: nat)
    requires IsRun(Start(now), es)
    requires Pending(After(Start(now), es), i) && Pending(After(Start(now), es), j)
    ensures i == j && After(Start(now), es).vars.inflight == Some(i)
  {
    RunsAreSound(Start(now), es);
  }

  ghost predicate InflightIffOutstanding(w: World) {
    w.vars.inflight.Some? <==> exists id: nat :: Pending(w, id)
  }

  ghost predicate SomeClosureThrewEarly(w: World) {
    exists id: nat :: id < |w.refreshes| && w.refreshes[id].threwEarly
  }

  /** The promise variable is set exactly while a refresh is outstanding, unless and only unless a
      refresh closure threw before its first await. */
  lemma InflightIsExact(now: nat, es: seq<Event>)
    requires IsRun(Start(now), es)
    ensures InflightIffOutstanding(After(Start(now), es)) <==> !SomeClosureThrewEarly(After(Start(now), es))
  {
    RunsAreSound(Start(now), es);
    var w := After(Start(now), es);
    if w.vars.inflight.Some? && !SomeClosureThrewEarly(w) {
      assert Pending(w, w.vars.inflight.value);
    }
  }

  /** Two callers that waited for the same promise and have resumed saw the same boolean. */
  lemma WaitersAgree(now: nat, es: seq<Event>, i: nat, j: nat, t: Ticket, u: Ticket)
    requires IsRun(Start(now), es)
    requires var w := After(Start(now), es);
             i < |w.calls| && j < |w.calls| && Resumed(w.calls[i], t) && Resumed(w.calls[j], u)
    requires t.wait.Promise? && t.wait == u.wait
    ensures var w := After(Start(now), es); SawTrue(w.calls[i]) == SawTrue(w.calls[j])
  {
    RunsAreSound(Start(now), es);
    var w := After(Start(now), es);
    assert CallSound(w, w.calls[i]) && CallSound(w, w.calls[j]);
  }

  /** The call is past its wait on `t`. */
  predicate Resumed(c: Call, t: Ticket) {
    match c.phase
    case FirstFetch => false
    case Waiting(_) => false
    case CookieDelay(u, _) => u == t
    case RetryFetch(u) => u == t
    case Done(last, _, _) => last == Some(t)
  }

  predicate SawTrue(c: Call) {
    c.phase.CookieDelay? || Retried(c)
  }

  /** The retry of call `i` was preceded by a refresh success: during its wait, or under 15 s before. */
  ghost predicate RetryJustified(w: World, i: nat) {
    i < |w.calls| && exists t: Ticket :: Resumed(w.calls[i], t) && Justified(w, t)
  }

  ghost predicate RetriesJustified(w: World) {
    forall i: nat :: Fetch(i, true) in w.log ==> RetryJustified(w, i)
  }

  /** No grace test was made before time `m`. */
  ghost predicate TicketsFrom(w: World, m: int) {
    m <= w.now && forall i: nat, t: Ticket :: i < |w.calls| && HoldsTicket(w.calls[i], t) ==> m <= t.checkedAt
  }

  predicate HoldsTicket(c: Call, t: Ticket) {
    Resumed(c, t) || c.phase == Waiting(t)
  }

  lemma StepKeepsTickets(w: World, e: Event, m: int)
    requires TicketsFrom(w, m) && Enabled(w, e)
    ensures TicketsFrom(Apply(w, e), m)
  {
    var v := Apply(w, e);
    forall i: nat, t: Ticket | i < |v.calls| && HoldsTicket(v.calls[i], t) ensures m <= t.checkedAt {
      assert i < |w.calls| && HoldsTicket(w.calls[i], t) ==> m <= t.checkedAt;
    }
  }

  lemma {:induction false} RunsKeepTickets(w: World, es: seq<Event>, m: int)
    requires TicketsFrom(w, m) && IsRun(w, es)
    ensures TicketsFrom(After(w, es), m)
    decreases |es|
  {
    if es != [] {
      StepKeepsTickets(w, es[0], m);
      RunsKeepTickets(Apply(w, es[0]), es[1..], m);
    }
  }

  lemma RetriesAreJustified(now: int, es: seq<Event>)
    requires REFRESH_GRACE_PERIOD_MS <= now && IsRun(Start(now), es)
    ensures RetriesJustified(After(Start(now), es))
  {
    RunsAreSound(Start(now), es);
    RunsKeepTickets(Start(now), es, now);
    var w := After(Start(now), es);
    forall i: nat | Fetch(i, true) in w.log ensures RetryJustified(w, i) {
      var k: nat :| k < |w.log| && w.log[k] == Fetch(i, true);
      assert RequestSound(w, w.log[k]) && CallSound(w, w.calls[i]);
      var t := if w.calls[i].phase.RetryFetch? then w.calls[i].phase.ticket else w.calls[i].phase.last.value;
      assert HoldsTicket(w.calls[i], t) && Resumed(w.calls[i], t) && Justified(w, t);
    }
  }

  ghost predicate AlwaysJustified(now: int) {
    forall es: seq<Event> :: IsRun(Start(now), es) ==> RetriesJustified(After(Start(now), es))
  }

  /** The clock must start past the grace period: `_lastRefreshTime` starts at 0, so an earlier clock
      makes a first 401 retry without any refresh. */
  lemma JustifiedFromStartIff(now: int)
    ensures AlwaysJustified(now) <==> REFRESH_GRACE_PERIOD_MS <= now
  {
    if REFRESH_GRACE_PERIOD_MS <= now {
      forall es: seq<Event> | IsRun(Start(now), es) ensures RetriesJustified(After(Start(now), es)) {
        RetriesAreJustified(now, es);
      }
    } else {
      UnjustifiedRetry(now);
    }
  }

  lemma GraceAnswer(w: World, a: Answer, t: Ticket)
    requires w.calls == [Call("GET", "/orders", false, FirstFetch)]
        && w.now - w.vars.lastRefresh < REFRESH_GRACE_PERIOD_MS
    requires Unauthorized(a) && t == Ticket(Grace, w.now)
    ensures Apply(w, Answered(0, a, false)) == w.(calls := [Call("GET", "/orders", false, Waiting(t))])
  {
    assert !IsRefreshPath("/orders") by {
      assert |"/orders"| == 7;
    }
  }

  lemma UnjustifiedRetry(now: int)
    requires now < REFRESH_GRACE_PERIOD_MS
    ensures exists es :: IsRun(Start(now), es) && !RetriesJustified(After(Start(now), es))
  {
    var t := Ticket(Grace, now);
    var w0 := Start(now);
    var e1, e2, e3, e4, e5 := StartCall("GET", "/orders"), Answered(0, Response(401, false), false), Resume(0),
        Tick(50), Timer(0);
    var w1 := World(now, INITIAL, [], [Call("GET", "/orders", false, FirstFetch)], [Fetch(0, false)]);
    var w2 := w1.(calls := [Call("GET", "/orders", false, Waiting(t))]);
    var w3 := w1.(calls := [Call("GET", "/orders", false, CookieDelay(t, now + 50))]);
    var w4 := w3.(now := now + 50);
    var w5 := w4.(calls := [Call("GET", "/orders", false, RetryFetch(t))], log := [Fetch(0, false), Fetch(0, true)]);
    assert Apply(w4, e5) == w5;
    Prepend(w4, e5, []);
    assert Apply(w3, e4) == w4;
    Prepend(w3, e4, [e5] + []);
    assert Apply(w2, e3) == w3;
    Prepend(w2, e3, [e4] + ([e5] + []));
    GraceAnswer(w1, e2.answer, t);
    Prepend(w1, e2, [e3] + ([e4] + ([e5] + [])));
    assert Apply(w0, e1) == w1;
    Prepend(w0, e1, [e2] + ([e3] + ([e4] + ([e5] + []))));
    assert w5.log[|w5.log| - 1] == Fetch(0, true);
    forall u: Ticket | Resumed(w5.calls[0], u) ensures !Justified(w5, u) {}
    assert !RetryJustified(w5, 0);
  }

  /** A refresh success and the next refresh are at least the grace period apart. */
  lemma SuccessesAreSpaced(now: nat, es: seq<Event>, i: nat, j: nat)
    requires IsRun(Start(now), es)
    requires i < j < |After(Start(now), es).refreshes| && SucceededRefresh(After(Start(now), es), i)
    ensures var rs := After(Start(now), es).refreshes;
            rs[i].progress.at + REFRESH_GRACE_PERIOD_MS <= rs[j].startedAt
  {
    RunsAreSound(Start(now), es);
    var rs := After(Start(now), es).refreshes;
    assert Before(rs[i], rs[j]);
  }

  /** N calls send at most 3N requests in all. */
  lemma RequestsAreBounded(now: nat, es: seq<Event>)
    requires IsRun(Start(now), es)
    ensures |After(Start(now), es).log| <= 3 * |After(Start(now), es).calls|
  {
    RunsAreSound(Start(now), es);
    TotalRequestsBound(After(Start(now), es).calls);
  }

  lemma {:induction false} TotalRequestsBound(calls: seq<Call>)
    ensures TotalRequests(calls) <= 3 * |calls|
  {
    if calls != [] {
      TotalRequestsBound(calls[1..]);
    }
  }

  // ----- a closure that throws early -----

  /** A call that has not been told to go on; it can only be told false. */
  predicate NeverGoesOn(c: Call, id: nat) {
    match c.phase
    case FirstFetch => true
    case Waiting(t) => t.wait == Promise(id)
    case Done(_, retried, _) => !retried
    case _ => false
  }

  /** The promise variable is stuck on a promise that has already settled to false. */
  ghost predicate Jammed(w: World, id: nat) {
    && Sound(w) && id < |w.refreshes| && w.refreshes[id].threwEarly
  }

  lemma JammedStep(w: World, id: nat, e: Event, i: nat)
    requires Jammed(w, id) && Enabled(w, e)
    ensures Jammed(Apply(w, e), id) && Apply(w, e).refreshes == w.refreshes
    ensures |w.calls| <= |Apply(w, e).calls|
    ensures i < |Apply(w, e).calls| && (i < |w.calls| ==> NeverGoesOn(w.calls[i], id)) ==>
        NeverGoesOn(Apply(w, e).calls[i], id)
  {
    StepKeepsSound(w, e);
    JammedFacts(w, id);
    assert e.RefreshResponse? || e.RefreshRejected? || e.RefreshBody? ==> Pending(w, e.id);
    JammedApply(w, id, e, i);
  }

  lemma JammedFacts(w: World, id: nat)
    requires Jammed(w, id)
    ensures w.vars.inflight == Some(id) && w.refreshes[id].progress.Settled? && !w.refreshes[id].progress.ok
    ensures forall j: nat :: !Pending(w, j)
    ensures w.now - w.vars.lastRefresh >= REFRESH_GRACE_PERIOD_MS
  {
    assert !SucceededRefresh(w, id);
  }

  lemma JammedApply(w: World, id: nat, e: Event, i: nat)
    requires Enabled(w, e) && id < |w.refreshes| && w.vars.inflight == Some(id)
    requires w.refreshes[id].progress.Settled? && !w.refreshes[id].progress.ok && forall j: nat :: !Pending(w, j)
    requires w.now - w.vars.lastRefresh >= REFRESH_GRACE_PERIOD_MS
    ensures Apply(w, e).refreshes == w.refreshes && |w.calls| <= |Apply(w, e).calls|
    ensures i < |Apply(w, e).calls| && (i < |w.calls| ==> NeverGoesOn(w.calls[i], id)) ==>
        NeverGoesOn(Apply(w, e).calls[i], id)
  {
    assert e.RefreshResponse? || e.RefreshRejected? || e.RefreshBody? ==> Pending(w, e.id);
  }

  /** After one early throw no refresh is ever sent again, and a call that had not been told to go
      on by then, or starts later, never retries. */
  lemma {:induction false} JamIsPermanent(w: World, id: nat, es: seq<Event>, i: nat)
    requires Jammed(w, id) && IsRun(w, es)
    ensures After(w, es).refreshes == w.refreshes && After(w, es).vars.inflight == Some(id)
    ensures i < |After(w, es).calls| && (i < |w.calls| ==> NeverGoesOn(w.calls[i], id)) ==>
        !Retried(After(w, es).calls[i])
    decreases |es|
  {
    if es != [] {
      JammedStep(w, id, es[0], i);
      JamIsPermanent(Apply(w, es[0]), id, es[1..], i);
    }
  }

  // ----- progress -----

  function CallWork(c: Call): nat {
    match c.phase
    case FirstFetch => 6
    case Waiting(_) => 3
    case CookieDelay(_, _) => 2
    case RetryFetch(_) => 1
    case Done(_, _, _) => 0
  }

  function RefreshWork(r: Refresh): nat {
    match r.progress
    case AwaitingResponse => 2
    case AwaitingBody => 1
    case Settled(_, _, _) => 0
  }

  function CallsWork(calls: seq<Call>): nat {
    if calls == [] then 0 else CallWork(calls[0]) + CallsWork(calls[1..])
  }

  function RefreshesWork(rs: seq<Refresh>): nat {
    if rs == [] then 0 else RefreshWork(rs[0]) + RefreshesWork(rs[1..])
  }

  function Work(w: World): nat {
    CallsWork(w.calls) + RefreshesWork(w.refreshes)
  }

  lemma {:induction false} CallsWorkUpdate(calls: seq<Call>, i: nat, c: Call)
    requires i < |calls|
    ensures CallsWork(calls[i := c]) == CallsWork(calls) - CallWork(calls[i]) + CallWork(c)
  {
    if i == 0 {
      assert calls[i := c][1..] == calls[1..];
    } else {
      assert calls[i := c][1..] == calls[1..][i - 1 := c];
      CallsWorkUpdate(calls[1..], i - 1, c);
    }
  }

  lemma {:induction false} CallsWorkAppend(calls: seq<Call>, c: Call)
    ensures CallsWork(calls + [c]) == CallsWork(calls) + CallWork(c)
  {
    if calls == [] {
      assert calls + [c] == [c];
    } else {
      assert (calls + [c])[1..] == calls[1..] + [c];
      CallsWorkAppend(calls[1..], c);
    }
  }

  lemma {:induction false} RefreshesWorkUpdate(rs: seq<Refresh>, i: nat, r: Refresh)
    requires i < |rs|
    ensures RefreshesWork(rs[i := r]) == RefreshesWork(rs) - RefreshWork(rs[i]) + RefreshWork(r)
  {
    if i == 0 {
      assert rs[i := r][1..] == rs[1..];
    } else {
      assert rs[i := r][1..] == rs[1..][i - 1 := r];
      RefreshesWorkUpdate(rs[1..], i - 1, r);
    }
  }

  lemma {:induction false} RefreshesWorkAppend(rs: seq<Refresh>, r: Refresh)
    ensures RefreshesWork(rs + [r]) == RefreshesWork(rs) + RefreshWork(r)
  {
    if rs == [] {
      assert rs + [r] == [r];
    } else {
      assert (rs + [r])[1..] == rs[1..] + [r];
      RefreshesWorkAppend(rs[1..], r);
    }
  }

  /** Events that are neither time passing nor a new call. */
  predicate IsWork(e: Event) {
    !e.Tick? && !e.StartCall?
  }

  lemma WorkDecreases(w: World, e: Event)
    requires Enabled(w, e)
    ensures IsWork(e) ==> Work(Apply(w, e)) < Work(w)
    ensures e.Tick? ==> Work(Apply(w, e)) == Work(w)
    ensures e.StartCall? ==> Work(Apply(w, e)) == Work(w) + 6
  {
    var v := Apply(w, e);
    match e
    case Tick(_) =>
    case StartCall(verb, path) => CallsWorkAppend(w.calls, Call(verb, path, false, FirstFetch));
    case Answered(i, a, throwsEarly) => AnswerDecreasesWork(w, i, a, throwsEarly);
    case RefreshResponse(id, _) => RefreshesWorkUpdate(w.refreshes, id, v.refreshes[id]);
    case RefreshRejected(id) => RefreshesWorkUpdate(w.refreshes, id, v.refreshes[id]);
    case RefreshBody(id, _) => RefreshesWorkUpdate(w.refreshes, id, v.refreshes[id]);
    case Resume(i) => CallsWorkUpdate(w.calls, i, v.calls[i]);
    case Timer(i) => CallsWorkUpdate(w.calls, i, v.calls[i]);
  }

  lemma AnswerDecreasesWork(w: World, i: nat, a: Answer, throwsEarly: bool)
    requires Enabled(w, Answered(i, a, throwsEarly))
    ensures Work(OnAnswer(w, i, a, throwsEarly)) < Work(w)
  {
    var v := OnAnswer(w, i, a, throwsEarly);
    CallsWorkUpdate(w.calls, i, v.calls[i]);
    assert v.calls == w.calls[i := v.calls[i]] && (v.calls[i].phase.Waiting? || v.calls[i].phase.Done?);
    if v.refreshes != w.refreshes {
      AnswerStartsOne(w, i, a, throwsEarly);
      RefreshesWorkAppend(w.refreshes, v.refreshes[|w.refreshes|]);
    }
  }

  lemma AnswerStartsOne(w: World, i: nat, a: Answer, throwsEarly: bool)
    requires Enabled(w, Answered(i, a, throwsEarly)) && OnAnswer(w, i, a, throwsEarly).refreshes != w.refreshes
    ensures w.calls[i].phase.FirstFetch?
    ensures var rs := OnAnswer(w, i, a, throwsEarly).refreshes;
      |rs| == |w.refreshes| + 1 && rs == w.refreshes + [rs[|w.refreshes|]]
        && OnAnswer(w, i, a, throwsEarly).calls[i].phase.Waiting?
  {
  }

  /** No deadlock: from every sound state some schedule ends every call; no call waits forever. */
  lemma {:induction false} EveryCallCanEnd(w: World) returns (es: seq<Event>)
    requires Sound(w)
    ensures IsRun(w, es) && (forall e :: e in es ==> !e.StartCall?)
    ensures forall i: nat :: i < |After(w, es).calls| ==> After(w, es).calls[i].phase.Done?
    decreases Work(w)
  {
    if i: nat :| i < |w.calls| && !w.calls[i].phase.Done? {
      var e := NextFor(w, i);
      var ms := if w.calls[i].phase.CookieDelay? && w.now < w.calls[i].phase.until
          then w.calls[i].phase.until - w.now else 0;
      var v := Apply(w, Tick(ms));
      StepKeepsSound(w, Tick(ms));
      WorkDecreases(w, Tick(ms));
      StepKeepsSound(v, e);
      WorkDecreases(v, e);
      var rest := EveryCallCanEnd(Apply(v, e));
      Prepend(v, e, rest);
      Prepend(w, Tick(ms), [e] + rest);
      es := [Tick(ms)] + ([e] + rest);
    } else {
      es := [];
    }
  }

  /** The event that moves call `i` on, enabled once its timer is due. */
  lemma NextFor(w: World, i: nat) returns (e: Event)
    requires Sound(w) && i < |w.calls| && !w.calls[i].phase.Done?
    ensures IsWork(e)
    ensures forall ms: nat :: (w.calls[i].phase.CookieDelay? ==> w.calls[i].phase.until <= w.now + ms) ==>
              Enabled(Apply(w, Tick(ms)), e)
  {
    assert CallSound(w, w.calls[i]);
    match w.calls[i].phase
    case FirstFetch => e := Answered(i, NetworkError, false);
    case RetryFetch(_) => e := Answered(i, NetworkError, false);
    case CookieDelay(_, _) => e := Timer(i);
    case Waiting(t) =>
      if t.wait.Promise? && !w.refreshes[t.wait.id].progress.Settled? {
        e := RefreshRejected(t.wait.id);
      } else {
        e := Resume(i);
      }
  }

  function Starts(es: seq<Event>): nat {
    if es == [] then 0 else (if es[0].StartCall? then 1 else 0) + Starts(es[1..])
  }

  function Works(es: seq<Event>): nat {
    if es == [] then 0 else (if IsWork(es[0]) then 1 else 0) + Works(es[1..])
  }

  /** No livelock: the events of a run other than time passing number at most seven per call. */
  lemma {:induction false} RunsAreShort(w: World, es: seq<Event>)
    requires IsRun(w, es)
    ensures Works(es) + Work(After(w, es)) <= Work(w) + 6 * Starts(es)
    decreases |es|
  {
    if es != [] {
      WorkDecreases(w, es[0]);
      RunsAreShort(Apply(w, es[0]), es[1..]);
    }
  }
}
