/**
 What a history of refresh events decides (frontend/lib/auth-client.js): the cached token, how calls end, and
 when they are sent again, stated on the events alone.
 */
module RefreshHistory {
  import opened Wrappers
  import opened RefreshProtocol

  // ----- runs from their end -----

  lemma {:induction false} RunLast(w: World, es: seq<Event>, e: Event)
    requires IsRun(w, es + [e])
    ensures IsRun(w, es) && Enabled(After(w, es), e)
    ensures After(w, es + [e]) == Apply(After(w, es), e)
    decreases |es|
  {
    if es == [] {
      assert es + [e] == [e] && [e][1..] == [];
    } else {
      assert (es + [e])[1..] == es[1..] + [e];
      RunLast(Apply(w, es[0]), es[1..], e);
    }
  }

  // ----- the cached token -----

  /** A refresh succeeds and brings a token. */
  predicate BringsToken(e: Event) {
    e.RefreshBody? && e.token != ""
  }

  predicate IsUnauthorizedAnswer(a: Answer) {
    a.Response? && (a.status == 401 || (a.status == 403 && a.csrfCode))
  }

  /** The paths of the session itself. */
  predicate NeverRefreshes(path: string) {
    path in ["/auth/sessions/refresh", "/auth/sessions", "/auth/challenges"]
  }

  /** A call ends with a final 401 or 403: of its second request, of one for the session itself, or of its first after
      a refresh that failed. */
  predicate EndsUnauthorized(w: World, e: Event) {
    match e
    case Answered(i, a, _) =>
      && i < |w.calls| && IsUnauthorizedAnswer(a)
      && (w.calls[i].phase.RetryFetch? || NeverRefreshes(w.calls[i].path))
    case Resume(i) =>
      && i < |w.calls| && w.calls[i].phase.Waiting?
      && (match w.calls[i].phase.ticket.wait
          case Grace => false
          case Promise(id) => id < |w.refreshes| && w.refreshes[id].progress.Settled? && !w.refreshes[id].progress.ok)
    case _ => false
  }

  ghost predicate DropsToken(w: World, es: seq<Event>, m: int) {
    0 <= m < |es| && IsRun(w, es[..m]) && EndsUnauthorized(After(w, es[..m]), es[m])
  }

  /** This event has brought the last token, and it was not dropped since. */
  ghost predicate IsLastToken(w: World, es: seq<Event>, n: int) {
    && 0 <= n < |es| && BringsToken(es[n])
    && forall m :: n < m < |es| ==> !BringsToken(es[m]) && !DropsToken(w, es, m)
  }

  lemma TokenStep(w: World, e: Event)
    requires Enabled(w, e)
    ensures Apply(w, e).vars.csrf ==
      if BringsToken(e) then e.token else if EndsUnauthorized(w, e) then "" else w.vars.csrf
  {
  }

  lemma LastTokenStep(w: World, es: seq<Event>, e: Event, n: int)
    requires IsRun(w, es + [e]) && IsRun(w, es)
    ensures IsLastToken(w, es + [e], n) <==>
      if n == |es| then BringsToken(e)
      else IsLastToken(w, es, n) && !BringsToken(e) && !EndsUnauthorized(After(w, es), e)
  {
    var all := es + [e];
    assert all[|es|] == e && all[..|es|] == es;
    forall m | 0 <= m < |es| ensures all[m] == es[m] && (DropsToken(w, all, m) <==> DropsToken(w, es, m)) {
      assert all[..m] == es[..m];
    }
  }

  lemma {:induction false} FindLastToken(now: nat, es: seq<Event>) returns (last: Option<nat>)
    requires IsRun(Start(now), es)
    ensures match last
      case None => (forall n :: !IsLastToken(Start(now), es, n)) && After(Start(now), es).vars.csrf == ""
      case Some(n) => IsLastToken(Start(now), es, n) && After(Start(now), es).vars.csrf == es[n].token
  {
    if es == [] {
      return None;
    }
    var init, e := es[..|es| - 1], es[|es| - 1];
    assert es == init + [e];
    RunLast(Start(now), init, e);
    last := FindLastToken(now, init);
    TokenStep(After(Start(now), init), e);
    forall n ensures IsLastToken(Start(now), es, n) <==>
        if n == |init| then BringsToken(e)
        else IsLastToken(Start(now), init, n) && !BringsToken(e) && !EndsUnauthorized(After(Start(now), init), e)
    {
      LastTokenStep(Start(now), init, e, n);
    }
    if BringsToken(e) {
      last := Some(|init|);
    } else if EndsUnauthorized(After(Start(now), init), e) {
      last := None;
    }
  }

  lemma OneLastToken(w: World, es: seq<Event>, n: int, m: int)
    requires IsLastToken(w, es, n) && IsLastToken(w, es, m)
    ensures n == m
  {
  }

  /** Over every run: the cached token is the last one that a refresh has brought, if no call has ended with a final
      401 or 403 since; and otherwise there is none. A refresh that brings no token leaves it as it is. */
  lemma CachedTokenIs(now: nat, es: seq<Event>)
    requires IsRun(Start(now), es)
    ensures forall n :: IsLastToken(Start(now), es, n) ==> After(Start(now), es).vars.csrf == es[n].token
    ensures (forall n :: !IsLastToken(Start(now), es, n)) ==> After(Start(now), es).vars.csrf == ""
  {
    var last := FindLastToken(now, es);
    forall n | IsLastToken(Start(now), es, n) ensures last == Some(n) {
      OneLastToken(Start(now), es, n, last.value);
    }
  }

  // ----- how refreshes succeed -----

  lemma {:induction false} BodyIsAwaited(now: nat, es: seq<Event>, id: nat)
    requires IsRun(Start(now), es)
    ensures var w := After(Start(now), es);
      id < |w.refreshes| && w.refreshes[id].progress.AwaitingBody? ==> RefreshResponse(id, true) in es
  {
    if es != [] {
      var init, e := es[..|es| - 1], es[|es| - 1];
      assert es == init + [e];
      RunLast(Start(now), init, e);
      BodyIsAwaited(now, init, id);
    }
  }

  /** A refresh succeeds only after its response was a success. */
  lemma SuccessNeedsResponse(now: nat, es: seq<Event>, id: nat, token: string)
    requires IsRun(Start(now), es + [RefreshBody(id, token)])
    ensures RefreshResponse(id, true) in es
  {
    RunLast(Start(now), es, RefreshBody(id, token));
    BodyIsAwaited(now, es, id);
  }

  // ----- how calls end -----

  /** `GET`, in any case, of a session page. */
  predicate AsksSession(c: Call) {
    && c.verb in ["GET", "GEt", "GeT", "Get", "gET", "gEt", "geT", "get"]
    && ((|c.path| >= 6 && c.path[..6] == "/auth/") || (|c.path| >= 10 && c.path[..10] == "/merchant/"))
  }

  lemma SessionIff(c: Call)
    ensures AsksSession(c) <==> IsSessionGet(c.verb, c.path)
  {
    if |c.verb| == 3 {
      assert c.verb == [c.verb[0], c.verb[1], c.verb[2]];
    }
  }

  /** After an answer a call goes on exactly if that is the first, a 401 or a 403 with a token code, and not for the
      session itself; it then waits. Otherwise it ends, and returns exactly on a 2xx, or for a session page on a
      400, 401 or 403; else it throws. */
  lemma AnswerDecides(w: World, i: nat, a: Answer, t: bool)
    requires Enabled(w, Answered(i, a, t))
    ensures var c := w.calls[i]; var after := Apply(w, Answered(i, a, t));
      && i < |after.calls|
      && if c.phase.FirstFetch? && IsUnauthorizedAnswer(a) && !NeverRefreshes(c.path) then after.calls[i].phase.Waiting?
         else
           && after.calls[i].phase.Done? && (after.calls[i].phase.retried <==> c.phase.RetryFetch?)
           && (after.calls[i].phase.returned <==>
                 a.Response? && (200 <= a.status <= 299 || (AsksSession(c) && a.status in {400, 401, 403})))
  {
    SessionIff(w.calls[i]);
  }

  /** A caller that has waited goes on exactly if it did so by the grace period or the refresh succeeded, and waits
      50 ms more; otherwise it ends with its first answer. */
  lemma ResumeDecides(w: World, i: nat)
    requires Enabled(w, Resume(i))
    ensures var c := w.calls[i]; var after := Apply(w, Resume(i)); var wait := c.phase.ticket.wait;
      && i < |after.calls|
      && if wait.Promise? && !w.refreshes[wait.id].progress.ok then
           after.calls[i].phase == Done(Some(c.phase.ticket), false, AsksSession(c))
         else
           after.calls[i].phase == CookieDelay(c.phase.ticket, w.now + 50)
  {
    SessionIff(w.calls[i]);
  }

  lemma {:induction false} StillDelayed(w: World, i: nat, es: seq<Event>)
    requires IsRun(w, es) && i < |w.calls| && w.calls[i].phase.CookieDelay? && Timer(i) !in es
    ensures i < |After(w, es).calls| && After(w, es).calls[i] == w.calls[i]
    decreases |es|
  {
    if es != [] {
      assert es[0] != Timer(i);
      StillDelayed(Apply(w, es[0]), i, es[1..]);
    }
  }

  /** A request is sent again no sooner than 50 ms after its caller went on, and then it is sent. */
  lemma RetryIsDelayed(w: World, i: nat, es: seq<Event>)
    requires Enabled(w, Resume(i)) && Apply(w, Resume(i)).calls[i].phase.CookieDelay?
    requires IsRun(Apply(w, Resume(i)), es + [Timer(i)]) && Timer(i) !in es
    ensures var v := Apply(w, Resume(i)); IsRun(v, es)
    ensures var v := Apply(w, Resume(i));
      && After(v, es).now >= w.now + 50
      && After(v, es + [Timer(i)]).log == After(v, es).log + [Fetch(i, true)]
  {
    var v := Apply(w, Resume(i));
    RunLast(v, es, Timer(i));
    StillDelayed(v, i, es);
  }

  // ----- how long runs are -----

  /** How the events are counted: starts of calls, and events that neither start one nor only let time pass. */
  lemma {:induction false} CountsAppend(es: seq<Event>, e: Event)
    ensures Starts([]) == 0 && Works([]) == 0
    ensures Starts(es + [e]) == Starts(es) + if e.StartCall? then 1 else 0
    ensures Works(es + [e]) == Works(es) + if e.StartCall? || e.Tick? then 0 else 1
  {
    if es == [] {
      assert es + [e] == [e] && [e][1..] == [];
    } else {
      assert (es + [e])[1..] == es[1..] + [e];
      CountsAppend(es[1..], e);
    }
  }

  /** A run from the start has at most six events for each call that it starts, besides the starts and ticks. */
  lemma SixPerCall(now: nat, es: seq<Event>)
    requires IsRun(Start(now), es)
    ensures Works(es) <= 6 * Starts(es)
  {
    RunsAreShort(Start(now), es);
  }
}
