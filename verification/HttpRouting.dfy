/**
 Path templates and first-match dispatch of the HTTP kernel (app/token_payments/api/http.py), and the
 second implementation of dispatch in app/token_payments/runtime/api_server.py.
 */
module HttpRouting {
  import opened Wrappers
  import opened TextTools
  import opened StringSets

  datatype Error = ValueError

  /** A path parameter binding by name. */
  type Params = map<string, string>

  /** A route; the handler is known by its operation. */
  datatype Route = Route(verb: string, template: string, operation: Option<string>)

  /** What dispatch does with a request that passed the guard. */
  datatype Outcome =
    | Handled(route: Route, params: Params)
    | MethodNotAllowed(allow: string)
    | RouteNotFound

  // ----- segments and templates -----

  predicate IsSlash(c: char) {
    c == '/'
  }

  function PathSegments(path: string): seq<string> {
    if path == "/" then [] else Split(Strip(path, IsSlash), '/')
  }

  predicate IsParam(segment: string) {
    |segment| > 2 && segment[0] == '{' && segment[|segment| - 1] == '}'
  }

  function NameOf(segment: string): string
    requires IsParam(segment)
  {
    segment[1..|segment| - 1]
  }

  predicate StartsWithSlash(path: string) {
    path != [] && path[0] == '/'
  }

  /** No two parameters share a name. */
  ghost predicate DistinctNames(template: seq<string>) {
    forall i, j :: 0 <= i < j < |template| && IsParam(template[i]) && IsParam(template[j]) ==>
        NameOf(template[i]) != NameOf(template[j])
  }

  ghost predicate ValidSegment(segment: string) {
    if IsParam(segment) then HasText(NameOf(segment)) else '{' !in segment && '}' !in segment
  }

  ghost predicate ValidTemplate(template: seq<string>) {
    DistinctNames(template) && forall i :: 0 <= i < |template| ==> ValidSegment(template[i])
  }

  lemma DistinctNamesStep(segments: seq<string>, n: nat, seen: set<string>)
    requires n < |segments| && DistinctNames(segments[..n])
    requires forall x :: x in seen <==> exists i :: 0 <= i < n && IsParam(segments[i]) && NameOf(segments[i]) == x
    ensures DistinctNames(segments[..n + 1]) <==> (IsParam(segments[n]) ==> NameOf(segments[n]) !in seen)
  {
    var now := segments[..n + 1];
    assert forall i :: 0 <= i < n ==> now[i] == segments[..n][i] == segments[i];
    if IsParam(segments[n]) && NameOf(segments[n]) in seen {
      var i :| 0 <= i < n && IsParam(segments[i]) && NameOf(segments[i]) == NameOf(segments[n]);
      assert now[i] == segments[i] && now[n] == segments[n];
    }
  }

  lemma DistinctNamesPrefix(segments: seq<string>, n: nat)
    requires n <= |segments|
    ensures DistinctNames(segments) ==> DistinctNames(segments[..n])
  {
  }

  /** `_validate_template_segments`, on the segments. */
  method ValidateSegments(segments: seq<string>) returns (r: Result<(), Error>)
    ensures r.Ok? <==> ValidTemplate(segments)
  {
    var seen: set<string> := {};
    for n := 0 to |segments|
      invariant forall i :: 0 <= i < n ==> ValidSegment(segments[i])
      invariant DistinctNames(segments[..n])
      invariant forall x :: x in seen <==> exists i :: 0 <= i < n && IsParam(segments[i]) && NameOf(segments[i]) == x
    {
      var segment := segments[n];
      DistinctNamesStep(segments, n, seen);
      if IsParam(segment) {
        var param := NameOf(segment);
        if !HasText(param) {
          return Err(ValueError);
        }
        if param in seen {
          DistinctNamesPrefix(segments, n + 1);
          return Err(ValueError);
        }
        seen := seen + {param};
      } else if '{' in segment || '}' in segment {
        return Err(ValueError);
      }
    }
    assert segments[..|segments|] == segments;
    return Ok(());
  }

  method ValidateTemplateSegments(template: string) returns (r: Result<(), Error>)
    ensures r.Ok? <==> ValidTemplate(PathSegments(template))
  {
    r := ValidateSegments(PathSegments(template));
  }

  predicate Matches(template: seq<string>, path: seq<string>) {
    |template| == |path| && forall i :: 0 <= i < |template| ==> IsParam(template[i]) || template[i] == path[i]
  }

  /** The bindings of the parameters, where a later one of the same name wins. */
  function ParamsOf(template: seq<string>, path: seq<string>): Params
    requires |template| == |path|
  {
    if template == [] then map[]
    else
      var last := |template| - 1;
      var before := ParamsOf(template[..last], path[..last]);
      if IsParam(template[last]) then before[NameOf(template[last]) := path[last]] else before
  }

  function MatchPath(template: string, path: string): Option<Params> {
    var t, p := PathSegments(template), PathSegments(path);
    if StartsWithSlash(path) && Matches(t, p) then Some(ParamsOf(t, p)) else None
  }

  lemma ParamsStep(t: seq<string>, p: seq<string>, n: nat)
    requires n < |t| == |p|
    ensures ParamsOf(t[..n + 1], p[..n + 1]) ==
      if IsParam(t[n]) then ParamsOf(t[..n], p[..n])[NameOf(t[n]) := p[n]] else ParamsOf(t[..n], p[..n])
  {
    assert t[..n + 1][..n] == t[..n] && p[..n + 1][..n] == p[..n];
  }

  /** The matching loop over the segments of a template and of a path. */
  method MatchSegments(t: seq<string>, p: seq<string>) returns (r: Option<Params>)
    requires |t| == |p|
    ensures r == if Matches(t, p) then Some(ParamsOf(t, p)) else None
  {
    var params: Params := map[];
    for n := 0 to |t|
      invariant forall i :: 0 <= i < n ==> IsParam(t[i]) || t[i] == p[i]
      invariant params == ParamsOf(t[..n], p[..n])
    {
      ParamsStep(t, p, n);
      if IsParam(t[n]) {
        params := params[NameOf(t[n]) := p[n]];
      } else if t[n] != p[n] {
        return None;
      }
    }
    assert t[..|t|] == t && p[..|p|] == p;
    return Some(params);
  }

  /** `HttpRoute.match_path`. */
  method MatchPathLoop(template: string, path: string) returns (r: Option<Params>)
    ensures r == MatchPath(template, path)
  {
    if !StartsWithSlash(path) {
      return None;
    }
    var t, p := PathSegments(template), PathSegments(path);
    if |t| != |p| {
      return None;
    }
    r := MatchSegments(t, p);
  }

  /** The path segments that a template stands for. */
  function Fill(template: seq<string>, params: Params): (p: seq<string>)
    ensures |p| == |template|
  {
    seq(|template|, i requires 0 <= i < |template| =>
      if IsParam(template[i]) && NameOf(template[i]) in params then params[NameOf(template[i])] else template[i])
  }

  function NamesOf(template: seq<string>): set<string> {
    set s | s in template && IsParam(s) :: NameOf(s)
  }

  lemma {:induction false} ParamsOfKeys(t: seq<string>, p: seq<string>)
    requires |t| == |p|
    ensures ParamsOf(t, p).Keys == NamesOf(t)
  {
    if t != [] {
      var last := |t| - 1;
      ParamsOfKeys(t[..last], p[..last]);
      assert t == t[..last] + [t[last]];
    }
  }

  /** Every parameter is bound to a segment that stands where a parameter of its name stands. */
  lemma {:induction false} ParamsOfValue(t: seq<string>, p: seq<string>, name: string)
    requires |t| == |p| && name in ParamsOf(t, p)
    ensures exists i :: 0 <= i < |t| && IsParam(t[i]) && NameOf(t[i]) == name && ParamsOf(t, p)[name] == p[i]
  {
    var last := |t| - 1;
    if !IsParam(t[last]) || NameOf(t[last]) != name {
      ParamsOfValue(t[..last], p[..last], name);
    }
  }

  /** Filling the template with the parameters of a match restores the path. */
  lemma FillUndoesMatch(t: seq<string>, p: seq<string>)
    requires Matches(t, p) && DistinctNames(t)
    ensures Fill(t, ParamsOf(t, p)) == p
  {
    ParamsOfKeys(t, p);
    forall i | 0 <= i < |t| ensures Fill(t, ParamsOf(t, p))[i] == p[i] {
      if IsParam(t[i]) {
        assert t[i] in t && NameOf(t[i]) in NamesOf(t);
        ParamsOfValue(t, p, NameOf(t[i]));
      }
    }
  }

  /** Matching a filled template restores the parameters. */
  lemma MatchUndoesFill(t: seq<string>, params: Params)
    requires params.Keys == NamesOf(t)
    ensures Matches(t, Fill(t, params)) && ParamsOf(t, Fill(t, params)) == params
  {
    var p := Fill(t, params);
    ParamsOfKeys(t, p);
    forall name | name in params ensures ParamsOf(t, p)[name] == params[name] {
      ParamsOfValue(t, p, name);
    }
  }

  /** The check for repeated names is what makes a match invertible: matches of a template can be
      undone exactly when its names are distinct. */
  lemma MatchesInvertibleIff(t: seq<string>)
    ensures DistinctNames(t) <==> forall p :: Matches(t, p) ==> Fill(t, ParamsOf(t, p)) == p
  {
    if DistinctNames(t) {
      forall p | Matches(t, p) ensures Fill(t, ParamsOf(t, p)) == p {
        FillUndoesMatch(t, p);
      }
    } else {
      var i, j :| 0 <= i < j < |t| && IsParam(t[i]) && IsParam(t[j]) && NameOf(t[i]) == NameOf(t[j]);
      var other := if t[j] == "a" then "b" else "a";
      var p := t[i := other];
      assert Matches(t, p);
      ParamsOfKeys(t, p);
      assert t[i] in t && NameOf(t[i]) in ParamsOf(t, p);
      assert Fill(t, ParamsOf(t, p))[i] == Fill(t, ParamsOf(t, p))[j];
      assert p[i] != p[j];
    }
  }

  // ----- paths of segments -----

  /** Segment lists that are the segments of some path. */
  predicate IsPathSegments(segments: seq<string>) {
    && (forall i :: 0 <= i < |segments| ==> '/' !in segments[i])
    && (segments == [] || segments == [""] || (segments[0] != "" && segments[|segments| - 1] != ""))
  }

  function PathOf(segments: seq<string>): string {
    if segments == [""] then "//" else "/" + Join(segments, "/")
  }

  lemma {:induction false} SplitEnds(s: string)
    ensures s != [] && s[0] != '/' ==> Split(s, '/')[0] != ""
    ensures s != [] && s[|s| - 1] != '/' ==> Split(s, '/')[|Split(s, '/')| - 1] != ""
    ensures forall i :: 0 <= i < |Split(s, '/')| ==> '/' !in Split(s, '/')[i]
  {
    if s != [] {
      SplitEnds(s[1..]);
      if s[1..] != [] {
        assert s[1..][|s| - 2] == s[|s| - 1];
      }
    }
  }

  /** Every path has segments of this kind. */
  lemma PathSegmentsAreSegments(path: string)
    requires StartsWithSlash(path)
    ensures IsPathSegments(PathSegments(path))
  {
    if path != "/" {
      var s := Strip(path, IsSlash);
      StripEnds(path);
      SplitEnds(s);
      assert s == [] ==> PathSegments(path) == [""];
    }
  }

  lemma StripEnds(path: string)
    ensures var s := Strip(path, IsSlash); s == [] || (s[0] != '/' && s[|s| - 1] != '/')
  {
    var l := StripLeft(path, IsSlash);
    var s := StripRight(l, IsSlash);
    assert s != [] ==> s[0] == l[0];
  }

  lemma {:induction false} JoinEnds(segments: seq<string>)
    requires segments != [] && segments[0] != "" && segments[|segments| - 1] != ""
    ensures var j := Join(segments, "/");
      j != [] && j[0] == segments[0][0] && j[|j| - 1] == segments[|segments| - 1][|segments[|segments| - 1]| - 1]
  {
    JoinStart(segments);
    JoinEnd(segments);
  }

  lemma JoinStart(segments: seq<string>)
    requires segments != [] && segments[0] != ""
    ensures Join(segments, "/") != [] && Join(segments, "/")[0] == segments[0][0]
  {
  }

  lemma {:induction false} JoinEnd(segments: seq<string>)
    requires segments != [] && segments[|segments| - 1] != ""
    ensures var j := Join(segments, "/"); var last := segments[|segments| - 1];
      j != [] && j[|j| - 1] == last[|last| - 1]
  {
    if |segments| > 1 {
      JoinEnd(segments[1..]);
    }
  }

  /** Each of those lists is the segments of a path. */
  lemma SegmentsOfPath(segments: seq<string>)
    requires IsPathSegments(segments)
    ensures StartsWithSlash(PathOf(segments)) && PathSegments(PathOf(segments)) == segments
  {
    if segments == [""] {
      assert StripLeft("//"[1..], IsSlash) == [] && StripLeft("//", IsSlash) == [];
    } else if segments != [] {
      JoinEnds(segments);
      assert '/' !in segments[0] && '/' !in segments[|segments| - 1];
      StripJoined(Join(segments, "/"));
      assert ['/'] == "/";
      SplitJoin(segments, '/');
    }
  }

  lemma StripJoined(j: string)
    requires j != [] && j[0] != '/' && j[|j| - 1] != '/'
    ensures Strip("/" + j, IsSlash) == j
  {
    assert ("/" + j)[1..] == j;
    assert StripLeft(j, IsSlash) == j;
    assert StripLeft("/" + j, IsSlash) == j;
  }

  /** A request path built from a template is routed back to exactly the parameters it was built from. */
  lemma BuiltPathMatches(template: string, params: Params)
    requires params.Keys == NamesOf(PathSegments(template)) && IsPathSegments(Fill(PathSegments(template), params))
    ensures MatchPath(template, PathOf(Fill(PathSegments(template), params))) == Some(params)
  {
    SegmentsOfPath(Fill(PathSegments(template), params));
    MatchUndoesFill(PathSegments(template), params);
  }

  // ----- dispatch -----

  predicate MatchesPath(route: Route, path: string) {
    MatchPath(route.template, path).Some?
  }

  predicate Accepts(route: Route, m: string, path: string) {
    route.verb == m && MatchesPath(route, path)
  }

  function FirstAccepting(routes: seq<Route>, m: string, path: string): (r: Option<Route>)
    ensures r.Some? ==> r.value in routes && Accepts(r.value, m, path)
  {
    if routes == [] then None
    else if Accepts(routes[0], m, path) then Some(routes[0])
    else FirstAccepting(routes[1..], m, path)
  }

  /** The methods of the routes that match the path. */
  function MethodsFor(routes: seq<Route>, path: string): set<string> {
    set route | route in routes && MatchesPath(route, path) :: route.verb
  }

  function Dispatch(routes: seq<Route>, m: string, path: string): Outcome {
    var route := FirstAccepting(routes, m, path);
    if route.Some? then Handled(route.value, ParamsOf(PathSegments(route.value.template), PathSegments(path)))
    else if MethodsFor(routes, path) != {} then MethodNotAllowed(Join(Sorted(MethodsFor(routes, path)), ", "))
    else RouteNotFound
  }

  function Trim(s: string): string {
    Strip(s, IsSpace)
  }

  /** `upper` of ASCII letters. */
  function Upper(s: string): string {
    seq(|s|, i requires 0 <= i < |s| => if 'a' <= s[i] <= 'z' then (s[i] as int - 32) as char else s[i])
  }

  function RouteOfTexts(verb: string, template: string, operation: Option<string>): Route {
    Route(Upper(Trim(verb)), Trim(template), if operation.Some? then Some(Trim(operation.value)) else None)
  }

  class HttpRouter {
    var routes: seq<Route>

    constructor (table: seq<Route>)
      ensures routes == table
    {
      routes := table;
    }

    /** Appends a route of stripped texts, with the method in upper case; or refuses a blank text, a template
        that is not one, or a handler that cannot be called. */
    method AddRoute(verb: string, template: string, callable: bool, operation: Option<string>)
      returns (r: Result<Route, Error>)
      modifies this
      ensures r.Ok? <==>
        && Trim(verb) != "" && StartsWithSlash(Trim(template)) && ValidTemplate(PathSegments(Trim(template)))
        && callable && (operation.Some? ==> Trim(operation.value) != "")
      ensures r.Ok? ==> r.value == RouteOfTexts(verb, template, operation) && routes == old(routes) + [r.value]
      ensures r.Err? ==> routes == old(routes)
    {
      if Trim(verb) == "" || !StartsWithSlash(Trim(template)) {
        return Err(ValueError);
      }
      var valid := ValidateTemplateSegments(Trim(template));
      if valid.Err? || !callable || (operation.Some? && Trim(operation.value) == "") {
        return Err(ValueError);
      }
      var route := RouteOfTexts(verb, template, operation);
      routes := routes + [route];
      return Ok(route);
    }

    /** `HttpRouter.handle` behind the guard: which handler runs with which parameters, or which error. */
    method Handle(m: string, path: string) returns (r: Outcome)
      ensures r == Dispatch(routes, m, path)
    {
      var pathMatches: seq<(Route, Params)> := [];
      assert routes[0..] == routes;
      for n := 0 to |routes|
        invariant FirstAccepting(routes, m, path) == FirstAccepting(routes[n..], m, path)
        invariant MethodsIn(pathMatches) == MethodsFor(routes[..n], path)
      {
        var route := routes[n];
        FirstFrom(routes, n, m, path);
        MethodsStep(routes, n, path);
        var params := MatchPathLoop(route.template, path);
        if params.Some? {
          MethodsInAppend(pathMatches, route, params.value);
          pathMatches := pathMatches + [(route, params.value)];
          if route.verb == m {
            DispatchHandled(routes, m, path, route);
            return Handled(route, params.value);
          }
        }
      }
      assert routes[..|routes|] == routes && routes[|routes|..] == [];
      MethodsInNone(pathMatches);
      if pathMatches != [] {
        var allowed := Join(Sorted(MethodsIn(pathMatches)), ", ");
        return MethodNotAllowed(allowed);
      }
      return RouteNotFound;
    }
  }

  lemma FirstFrom(routes: seq<Route>, n: nat, m: string, path: string)
    requires n < |routes|
    ensures FirstAccepting(routes[n..], m, path) ==
      if Accepts(routes[n], m, path) then Some(routes[n]) else FirstAccepting(routes[n + 1..], m, path)
  {
    assert routes[n..][0] == routes[n] && routes[n..][1..] == routes[n + 1..];
  }

  lemma MethodsStep(routes: seq<Route>, n: nat, path: string)
    requires n < |routes|
    ensures MethodsFor(routes[..n + 1], path) == MethodsFor(routes[..n], path)
        + if MatchesPath(routes[n], path) then {routes[n].verb} else {}
  {
    MethodsForAppend(routes[..n], routes[n], path);
    assert routes[..n + 1] == routes[..n] + [routes[n]];
  }

  lemma DispatchHandled(routes: seq<Route>, m: string, path: string, route: Route)
    requires FirstAccepting(routes, m, path) == Some(route)
    ensures Dispatch(routes, m, path) == Handled(route, MatchPath(route.template, path).value)
  {
  }

  lemma MethodsInNone(matched: seq<(Route, Params)>)
    ensures MethodsIn(matched) == {} <==> matched == []
  {
    if matched != [] {
      assert matched[0] in matched && matched[0].0.verb in MethodsIn(matched);
    }
  }

  function MethodsIn(matched: seq<(Route, Params)>): set<string> {
    set hit | hit in matched :: hit.0.verb
  }

  lemma MethodsInAppend(matched: seq<(Route, Params)>, route: Route, params: Params)
    ensures MethodsIn(matched + [(route, params)]) == MethodsIn(matched) + {route.verb}
  {
    var more := matched + [(route, params)];
    assert more[|matched|] == (route, params) && forall hit :: hit in matched ==> hit in more;
  }

  lemma MethodsForAppend(routes: seq<Route>, route: Route, path: string)
    ensures MethodsFor(routes + [route], path) == MethodsFor(routes, path)
        + if MatchesPath(route, path) then {route.verb} else {}
  {
    var more := routes + [route];
    assert more[|routes|] == route && forall x :: x in routes ==> x in more;
  }

  /** `_matched_route` of the observing server. */
  method MatchedRoute(routes: seq<Route>, m: string, path: string) returns (r: Option<Route>)
    ensures r == FirstAccepting(routes, m, path)
  {
    assert routes[0..] == routes;
    for n := 0 to |routes|
      invariant FirstAccepting(routes, m, path) == FirstAccepting(routes[n..], m, path)
    {
      assert routes[n..][0] == routes[n] && routes[n..][1..] == routes[n + 1..];
      if routes[n].verb == m {
        var params := MatchPathLoop(routes[n].template, path);
        if params.Some? {
          return Some(routes[n]);
        }
      }
    }
    return None;
  }

  /** The accepting route of lowest index. */
  ghost predicate IsFirst(routes: seq<Route>, m: string, path: string, i: nat) {
    i < |routes| && Accepts(routes[i], m, path) && forall j :: 0 <= j < i ==> !Accepts(routes[j], m, path)
  }

  lemma {:induction false} FirstIsLowest(routes: seq<Route>, m: string, path: string)
    ensures FirstAccepting(routes, m, path).None? <==> forall route :: route in routes ==> !Accepts(route, m, path)
    ensures FirstAccepting(routes, m, path).Some? ==>
      exists i: nat :: IsFirst(routes, m, path, i) && routes[i] == FirstAccepting(routes, m, path).value
  {
    if routes != [] {
      FirstIsLowest(routes[1..], m, path);
      if Accepts(routes[0], m, path) {
        assert IsFirst(routes, m, path, 0);
      } else if FirstAccepting(routes[1..], m, path).Some? {
        var i: nat :| IsFirst(routes[1..], m, path, i) && routes[1..][i] == FirstAccepting(routes[1..], m, path).value;
        assert forall j :: 1 <= j < i + 1 ==> routes[j] == routes[1..][j - 1];
        assert IsFirst(routes, m, path, i + 1);
      }
    }
  }

  /** Dispatch, for every table and request: the handler of the lowest accepting route, with the path
      restored by its parameters; otherwise 405 exactly when some route matches the path, else 404. */
  lemma DispatchMeaning(routes: seq<Route>, m: string, path: string)
    ensures match Dispatch(routes, m, path)
      case Handled(route, params) =>
        && (exists i: nat :: IsFirst(routes, m, path, i) && routes[i] == route)
        && MatchPath(route.template, path) == Some(params)
      case MethodNotAllowed(allow) =>
        && (forall route :: route in routes ==> !Accepts(route, m, path))
        && (exists route :: route in routes && MatchesPath(route, path))
      case RouteNotFound =>
        forall route :: route in routes ==> !MatchesPath(route, path)
  {
    FirstIsLowest(routes, m, path);
    if Dispatch(routes, m, path).MethodNotAllowed? {
      var verb :| verb in MethodsFor(routes, path);
    } else if Dispatch(routes, m, path).RouteNotFound? {
      forall route | route in routes ensures !MatchesPath(route, path) {
        assert route.verb !in MethodsFor(routes, path);
      }
    }
  }

  /** In order, once each, the methods with which the path is handled. */
  ghost predicate IsAllowList(allowed: seq<string>, routes: seq<Route>, path: string) {
    && (forall i, j :: 0 <= i < j < |allowed| ==> Less(allowed[i], allowed[j]))
    && (forall other :: other in allowed <==> Dispatch(routes, other, path).Handled?)
  }

  lemma SortedMethodsAreAllowed(routes: seq<Route>, path: string, allowed: seq<string>)
    requires StringSets.IsSorted(allowed, MethodsFor(routes, path))
    ensures IsAllowList(allowed, routes, path)
  {
    forall other ensures other in allowed <==> Dispatch(routes, other, path).Handled? {
      HandledIff(routes, other, path);
    }
  }

  /** A 405 answer lists, in order and once each, exactly the methods with which the same path is handled;
      the one that was asked for is not among them. */
  lemma AllowListsWhatWorks(routes: seq<Route>, m: string, path: string)
    requires Dispatch(routes, m, path).MethodNotAllowed?
    ensures exists allowed: seq<string> ::
      IsAllowList(allowed, routes, path) && m !in allowed && Dispatch(routes, m, path).allow == Join(allowed, ", ")
  {
    var allowed := Sorted(MethodsFor(routes, path));
    SortedMethodsAreAllowed(routes, path, allowed);
    assert IsAllowList(allowed, routes, path) && m !in allowed;
  }

  lemma HandledIff(routes: seq<Route>, m: string, path: string)
    ensures Dispatch(routes, m, path).Handled? <==> m in MethodsFor(routes, path)
  {
    FirstIsLowest(routes, m, path);
  }

  // ----- disjoint tables -----

  /** Some request is accepted by both routes. */
  ghost predicate Overlap(a: Route, b: Route) {
    exists m, path :: Accepts(a, m, path) && Accepts(b, m, path)
  }

  predicate Compatible(s: string, t: string) {
    IsParam(s) || IsParam(t) || s == t
  }

  /** The check on the two templates alone. */
  predicate Overlapping(a: Route, b: Route) {
    var s, t := PathSegments(a.template), PathSegments(b.template);
    a.verb == b.verb && |s| == |t| && forall i :: 0 <= i < |s| ==> Compatible(s[i], t[i])
  }

  function Common(s: seq<string>, t: seq<string>): (r: seq<string>)
    requires |s| == |t|
    ensures |r| == |s|
  {
    seq(|s|, i requires 0 <= i < |s| => if !IsParam(s[i]) then s[i] else if !IsParam(t[i]) then t[i] else "x")
  }

  lemma CommonMatches(s: seq<string>, t: seq<string>)
    requires |s| == |t| && forall i :: 0 <= i < |s| ==> Compatible(s[i], t[i])
    requires IsPathSegments(s) && IsPathSegments(t)
    ensures Matches(s, Common(s, t)) && Matches(t, Common(s, t)) && IsPathSegments(Common(s, t))
  {
  }

  lemma CommonRequest(a: Route, b: Route, segments: seq<string>)
    requires a.verb == b.verb && IsPathSegments(segments)
    requires Matches(PathSegments(a.template), segments) && Matches(PathSegments(b.template), segments)
    ensures Overlap(a, b)
  {
    var path := PathOf(segments);
    SegmentsOfPath(segments);
    assert MatchesPath(a, path) && MatchesPath(b, path);
    assert Accepts(a, a.verb, path) && Accepts(b, a.verb, path);
  }

  lemma SharedRequest(a: Route, b: Route, segments: seq<string>)
    requires Matches(PathSegments(a.template), segments) && Matches(PathSegments(b.template), segments)
        && a.verb == b.verb
    ensures Overlapping(a, b)
  {
  }

  /** Two routes share a request exactly when their templates are compatible segment by segment. */
  lemma OverlapIff(a: Route, b: Route)
    requires StartsWithSlash(a.template) && StartsWithSlash(b.template)
    ensures Overlap(a, b) <==> Overlapping(a, b)
  {
    if Overlapping(a, b) {
      PathSegmentsAreSegments(a.template);
      PathSegmentsAreSegments(b.template);
      var s, t := PathSegments(a.template), PathSegments(b.template);
      CommonMatches(s, t);
      CommonRequest(a, b, Common(s, t));
    }
    if Overlap(a, b) {
      var m, path :| Accepts(a, m, path) && Accepts(b, m, path);
      SharedRequest(a, b, PathSegments(path));
    }
  }

  ghost predicate PairwiseDisjoint(routes: seq<Route>) {
    forall a, b :: a in routes && b in routes && a != b ==> !Overlap(a, b)
  }

  ghost predicate SameDispatch(routes: seq<Route>, other: seq<Route>) {
    forall m, path :: Dispatch(routes, m, path) == Dispatch(other, m, path)
  }

  ghost predicate OrderDoesNotMatter(routes: seq<Route>) {
    forall other :: multiset(other) == multiset(routes) ==> SameDispatch(routes, other)
  }

  lemma DisjointFirst(routes: seq<Route>, other: seq<Route>, m: string, path: string)
    requires PairwiseDisjoint(routes) && forall x :: x in routes <==> x in other
    ensures FirstAccepting(routes, m, path) == FirstAccepting(other, m, path)
  {
    FirstIsLowest(routes, m, path);
    FirstIsLowest(other, m, path);
    var a, b := FirstAccepting(routes, m, path), FirstAccepting(other, m, path);
    assert a.Some? && b.Some? ==> a.value == b.value || Overlap(a.value, b.value);
  }

  lemma SameMethods(routes: seq<Route>, other: seq<Route>, path: string)
    requires forall x :: x in routes <==> x in other
    ensures MethodsFor(routes, path) == MethodsFor(other, path)
  {
  }

  lemma DisjointDispatch(routes: seq<Route>, other: seq<Route>, m: string, path: string)
    requires PairwiseDisjoint(routes) && multiset(other) == multiset(routes)
    ensures Dispatch(routes, m, path) == Dispatch(other, m, path)
  {
    assert forall x :: x in routes <==> x in multiset(routes);
    assert forall x :: x in other <==> x in multiset(other);
    DisjointFirst(routes, other, m, path);
    SameMethods(routes, other, path);
  }

  lemma Front(routes: seq<Route>, a: Route) returns (other: seq<Route>)
    requires a in routes
    ensures multiset(other) == multiset(routes) && other != [] && other[0] == a
  {
    var i :| 0 <= i < |routes| && routes[i] == a;
    other := [a] + routes[..i] + routes[i + 1..];
    assert routes == routes[..i] + [a] + routes[i + 1..];
    assert multiset(other) == multiset([a]) + multiset(routes[..i]) + multiset(routes[i + 1..]);
  }

  /** Every reordering of a table dispatches every request alike exactly when its routes are pairwise disjoint. */
  lemma OrderDoesNotMatterIff(routes: seq<Route>)
    ensures OrderDoesNotMatter(routes) <==> PairwiseDisjoint(routes)
  {
    if PairwiseDisjoint(routes) {
      forall other | multiset(other) == multiset(routes) ensures SameDispatch(routes, other) {
        forall m, path ensures Dispatch(routes, m, path) == Dispatch(other, m, path) {
          DisjointDispatch(routes, other, m, path);
        }
      }
    } else {
      var a, b :| a in routes && b in routes && a != b && Overlap(a, b);
      var m, path :| Accepts(a, m, path) && Accepts(b, m, path);
      var first := Front(routes, a);
      var second := Front(routes, b);
      assert Dispatch(first, m, path) != Dispatch(second, m, path);
      assert !SameDispatch(routes, first) || !SameDispatch(routes, second);
    }
  }
}
