// server.cpp: path patterns and the dispatch loop; handlers.cpp: the route table.

module Routing {
  import opened Options
  import opened Text

  datatype Handler = Health | PostFragment | GetFragments | GetMessageFragments | DeleteFragment
  datatype Route = Route(verb: string, pattern: string, handler: Handler)

  datatype Outcome =
    | NotFound
    | MethodNotAllowed
    | NoContent
    | Handled(handler: Handler, params: map<string, string>)

  predicate IsParam(segment: string) { segment != "" && segment[0] == ':' }

  // Segment by segment; a parameter takes any text, an empty one too.
  function MatchSegments(pp: seq<string>, cp: seq<string>): Option<map<string, string>>
    requires |pp| == |cp|
  {
    if pp == [] then Some(map[])
    else
      var n := |pp| - 1;
      match MatchSegments(pp[..n], cp[..n])
      case None => None
      case Some(params) =>
        if IsParam(pp[n]) then Some(params[pp[n][1..] := cp[n]])
        else if pp[n] == cp[n] then Some(params)
        else None
  }

  function Match(pattern: string, path: string): Option<map<string, string>> {
    var pp, cp := Split(pattern, '/'), Split(path, '/');
    if |pp| != |cp| then None else MatchSegments(pp, cp)
  }

  lemma {:induction false} PrefixMatches(pp: seq<string>, cp: seq<string>, i: nat)
    requires |pp| == |cp| && i <= |pp|
    ensures MatchSegments(pp, cp).Some? ==> MatchSegments(pp[..i], cp[..i]).Some?
  {
    if i < |pp| {
      var n := |pp| - 1;
      PrefixMatches(pp[..n], cp[..n], i);
      assert pp[..n][..i] == pp[..i] && cp[..n][..i] == cp[..i];
    } else {
      assert pp[..i] == pp && cp[..i] == cp;
    }
  }

  // HttpServer::match_pattern
  method MatchPattern(pattern: string, path: string) returns (matched: bool, params: map<string, string>)
    ensures match Match(pattern, path)
            case None => !matched
            case Some(m) => matched && params == m
  {
    params := map[];
    var pp := SplitLoop(pattern, '/');
    var cp := SplitLoop(path, '/');
    if |pp| != |cp| { return false, params; }
    var i := 0;
    while i < |pp|
      invariant 0 <= i <= |pp|
      invariant MatchSegments(pp[..i], cp[..i]) == Some(params)
    {
      assert pp[..i + 1][..i] == pp[..i] && cp[..i + 1][..i] == cp[..i];
      if IsParam(pp[i]) {
        params := params[pp[i][1..] := cp[i]];
      } else if pp[i] != cp[i] {
        PrefixMatches(pp, cp, i + 1);
        return false, params;
      }
      i := i + 1;
    }
    assert pp[..i] == pp && cp[..i] == cp;
    matched := true;
  }

  predicate Matches(r: Route, path: string) { Match(r.pattern, path).Some? }

  predicate Takes(r: Route, verb: string, path: string) {
    Matches(r, path) && (r.verb == "*" || r.verb == verb)
  }

  // The part of handle_connection after the request is parsed.
  method Dispatch(routes: seq<Route>, verb: string, path: string) returns (outcome: Outcome)
    ensures outcome == NoContent <==> verb == "OPTIONS"
    ensures verb != "OPTIONS" ==> Decides(routes, verb, path, outcome)
  {
    if verb == "OPTIONS" { return NoContent; }
    outcome := NotFound;
    var methodMatched := false;
    var i := 0;
    while i < |routes|
      invariant 0 <= i <= |routes|
      invariant outcome == NotFound
      invariant forall k :: 0 <= k < i ==> !Takes(routes[k], verb, path)
      invariant methodMatched <==> exists k :: 0 <= k < i && Matches(routes[k], path)
    {
      var matched, params := MatchPattern(routes[i].pattern, path);
      if matched {
        if routes[i].verb != "*" && routes[i].verb != verb {
          methodMatched := true;
        } else {
          return Handled(routes[i].handler, params);
        }
      }
      i := i + 1;
    }
    if methodMatched { outcome := MethodNotAllowed; }
  }

  // What dispatch answers: the first route that takes the request handles it;
  // 405 exactly when some pattern matches but no route takes it; 404 otherwise.
  ghost predicate Decides(routes: seq<Route>, verb: string, path: string, outcome: Outcome) {
    match outcome
    case Handled(h, params) =>
      exists k :: 0 <= k < |routes| && Takes(routes[k], verb, path) && routes[k].handler == h &&
        Match(routes[k].pattern, path) == Some(params) && forall j :: 0 <= j < k ==> !Takes(routes[j], verb, path)
    case MethodNotAllowed =>
      (exists k :: 0 <= k < |routes| && Matches(routes[k], path)) &&
      forall k :: 0 <= k < |routes| ==> !Takes(routes[k], verb, path)
    case NotFound => forall k :: 0 <= k < |routes| ==> !Matches(routes[k], path)
    case NoContent => false
  }

  lemma DecidesOneOutcome(routes: seq<Route>, verb: string, path: string, o1: Outcome, o2: Outcome)
    requires Decides(routes, verb, path, o1) && Decides(routes, verb, path, o2)
    ensures o1 == o2
  {}

  // No request is taken by two different routes.
  ghost predicate Unambiguous(routes: seq<Route>) {
    forall r1, r2, verb, path :: r1 in routes && r2 in routes && Takes(r1, verb, path) && Takes(r2, verb, path) ==>
      r1 == r2
  }

  // Over an unambiguous table the order of the routes does not matter.
  lemma OrderIrrelevant(routes: seq<Route>, permuted: seq<Route>, verb: string, path: string, outcome: Outcome)
    requires Unambiguous(routes) && multiset(routes) == multiset(permuted)
    requires Decides(routes, verb, path, outcome)
    ensures Decides(permuted, verb, path, outcome)
  {
    forall r ensures r in routes <==> r in permuted {
      assert r in multiset(routes) <==> r in multiset(permuted);
    }
    forall k | 0 <= k < |permuted| ensures permuted[k] in routes {}
    match outcome
    case Handled(h, params) =>
      var k :| 0 <= k < |routes| && Takes(routes[k], verb, path) && routes[k].handler == h &&
        Match(routes[k].pattern, path) == Some(params);
      assert routes[k] in permuted;
      var j := FirstTaker(permuted, verb, path, routes[k]);
      assert permuted[j] == routes[k];
    case MethodNotAllowed =>
      var k :| 0 <= k < |routes| && Matches(routes[k], path);
      assert routes[k] in permuted;
    case NotFound =>
  }

  lemma FirstTaker(routes: seq<Route>, verb: string, path: string, r: Route) returns (j: nat)
    requires r in routes && Takes(r, verb, path)
    ensures j < |routes| && Takes(routes[j], verb, path)
    ensures forall i :: 0 <= i < j ==> !Takes(routes[i], verb, path)
  {
    var at :| 0 <= at < |routes| && routes[at] == r;
    j := 0;
    while !Takes(routes[j], verb, path)
      invariant j <= at
      invariant forall i :: 0 <= i < j ==> !Takes(routes[i], verb, path)
      decreases at - j
    {
      j := j + 1;
    }
  }

  // ---- The registered table ----

  const REGISTERED: seq<Route> := [
    Route("GET", "/health", Health),
    Route("POST", "/api/fragments", PostFragment),
    Route("GET", "/api/fragments", GetFragments),
    Route("GET", "/api/fragments/:message_id/all", GetMessageFragments),
    Route("DELETE", "/api/fragments/:id", DeleteFragment)
  ]

  lemma SplitStep(item: string, rest: string)
    requires '/' !in item
    ensures Split(item + "/" + rest, '/') == [item] + Split(rest, '/')
  {
    CutAtChar(item, '/', rest);
  }

  lemma SplitEnd(item: string)
    requires '/' !in item && item != ""
    ensures Split(item, '/') == [item]
  {
    SplitJoin([item], '/');
  }

  lemma HealthSegments()
    ensures Split("/health", '/') == ["", "health"]
  {
    hide Split, CutAt;
    SplitEnd("health");
    assert "/health" == "" + "/" + "health";
    SplitStep("", "health");
  }

  // What follows "/api/fragments/" stands behind three segments.
  lemma ApiSegments(rest: string)
    ensures Split("/api/fragments/" + rest, '/') == ["", "api", "fragments"] + Split(rest, '/')
  {
    hide Split, CutAt;
    var t2 := "fragments" + "/" + rest;
    var t1 := "api" + "/" + t2;
    SplitStep("fragments", rest);
    SplitStep("api", t2);
    SplitStep("", t1);
    assert "/api/fragments/" + rest == "" + "/" + t1;
  }

  lemma FragmentsSegments()
    ensures Split("/api/fragments", '/') == ["", "api", "fragments"]
  {
    hide Split, CutAt;
    SplitEnd("fragments");
    SplitStep("api", "fragments");
    SplitStep("", "api" + "/" + "fragments");
    assert "/api/fragments" == "" + "/" + ("api" + "/" + "fragments");
  }

  lemma ParameterSegments()
    ensures Split("/api/fragments/:message_id/all", '/') == ["", "api", "fragments", ":message_id", "all"]
    ensures Split("/api/fragments/:id", '/') == ["", "api", "fragments", ":id"]
  {
    hide Split, CutAt;
    ApiSegments(":id");
    SplitEnd(":id");
    assert "/api/fragments/:id" == "/api/fragments/" + ":id";
    ApiSegments(":message_id/all");
    SplitEnd("all");
    SplitStep(":message_id", "all");
    assert ":message_id/all" == ":message_id" + "/" + "all";
    assert "/api/fragments/:message_id/all" == "/api/fragments/" + ":message_id/all";
  }

  // Routes of one method differ in their number of segments.
  function Depths(k: nat): nat requires k < 5 { [2, 3, 3, 5, 4][k] }

  lemma RegisteredDepth(k: nat)
    requires k < 5
    ensures |Split(REGISTERED[k].pattern, '/')| == Depths(k)
  {
    hide Split, CutAt;
    HealthSegments();
    FragmentsSegments();
    ParameterSegments();
  }

  lemma RegisteredUnambiguous()
    ensures Unambiguous(REGISTERED)
  {
    forall r1, r2, verb, path | r1 in REGISTERED && r2 in REGISTERED && Takes(r1, verb, path) && Takes(r2, verb, path)
      ensures r1 == r2
    {
      var k1 :| 0 <= k1 < 5 && REGISTERED[k1] == r1;
      var k2 :| 0 <= k2 < 5 && REGISTERED[k2] == r2;
      RegisteredDepth(k1);
      RegisteredDepth(k2);
      SameDepth(k1, k2, verb);
    }
  }

  lemma SameDepth(k1: nat, k2: nat, verb: string)
    requires k1 < 5 && k2 < 5 && Depths(k1) == Depths(k2)
    requires REGISTERED[k1].verb == "*" || REGISTERED[k1].verb == verb
    requires REGISTERED[k2].verb == "*" || REGISTERED[k2].verb == verb
    ensures k1 == k2
  {
    assert REGISTERED[k1].verb[0] != '*' && REGISTERED[k2].verb[0] != '*';
    assert REGISTERED[1].verb[0] != REGISTERED[2].verb[0];
  }

  // The registered table decides every request the same in every order.
  lemma RegisteredOrderIrrelevant(permuted: seq<Route>, verb: string, path: string, o1: Outcome, o2: Outcome)
    requires multiset(permuted) == multiset(REGISTERED)
    requires Decides(REGISTERED, verb, path, o1) && Decides(permuted, verb, path, o2)
    ensures o1 == o2
  {
    RegisteredUnambiguous();
    OrderIrrelevant(REGISTERED, permuted, verb, path, o1);
    DecidesOneOutcome(permuted, verb, path, o1, o2);
  }

  // ---- The three calls the client makes ----

  // A registered route that takes a request handles it.
  lemma RegisteredAt(k: nat, verb: string, path: string)
    requires k < 5 && |Split(path, '/')| == Depths(k) && REGISTERED[k].verb == verb
    requires Matches(REGISTERED[k], path)
    ensures Decides(REGISTERED, verb, path, Handled(REGISTERED[k].handler, Match(REGISTERED[k].pattern, path).value))
  {
    forall j | 0 <= j < k ensures !Takes(REGISTERED[j], verb, path) {
      RegisteredDepth(j);
      RegisteredDepth(k);
      hide Split, MatchSegments;
      if Takes(REGISTERED[j], verb, path) { SameDepth(j, k, verb); }
    }
  }

  lemma ThreeMatch()
    ensures MatchSegments(["", "api", "fragments"], ["", "api", "fragments"]) == Some(map[])
  {
    var three := ["", "api", "fragments"];
    assert three[..2] == ["", "api"] && ["", "api"][..1] == [""] && [""][..0] == [];
    assert MatchSegments([], []) == Some(map[]);
    assert MatchSegments([""], [""]) == Some(map[]);
    assert MatchSegments(["", "api"], ["", "api"]) == Some(map[]);
  }

  lemma ItemMatch(last: string)
    ensures MatchSegments(["", "api", "fragments", ":id"], ["", "api", "fragments", last]) == Some(map["id" := last])
  {
    ThreeMatch();
    assert ["", "api", "fragments", ":id"][..3] == ["", "api", "fragments"] == ["", "api", "fragments", last][..3];
    assert ":id"[1..] == "id";
  }

  lemma AllMatch(items: seq<string>)
    requires |items| == 2
    ensures MatchSegments(["", "api", "fragments", ":message_id", "all"], ["", "api", "fragments"] + items).Some? <==>
      items[1] == "all"
  {
    ThreeMatch();
    var three := ["", "api", "fragments"];
    assert ["", "api", "fragments", ":message_id", "all"][..4] == three + [":message_id"];
    assert (three + [":message_id"])[..3] == three;
    assert (three + items)[..4] == three + [items[0]] && (three + [items[0]])[..3] == three;
    assert MatchSegments(three + [":message_id"], three + [items[0]]).Some?;
  }

  // How the table decides a DELETE below "/api/fragments/".
  function DeleteRoute(rest: string): Outcome {
    var items := Split(rest, '/');
    if |items| == 1 then Handled(DeleteFragment, map["id" := items[0]])
    else if items == [] || (|items| == 2 && items[1] == "all") then MethodNotAllowed
    else NotFound
  }

  // Which patterns match a path below "/api/fragments/".
  lemma ItemMatches(rest: string)
    ensures var items, path := Split(rest, '/'), "/api/fragments/" + rest;
      && !Matches(REGISTERED[0], path)
      && (Matches(REGISTERED[1], path) <==> items == []) && (Matches(REGISTERED[2], path) <==> items == [])
      && (Matches(REGISTERED[3], path) <==> |items| == 2 && items[1] == "all")
      && Match(REGISTERED[4].pattern, path) == if |items| == 1 then Some(map["id" := items[0]]) else None
  {
    hide Split, MatchSegments, CutAt;
    var items, path := Split(rest, '/'), "/api/fragments/" + rest;
    ApiSegments(rest);
    RegisteredDepth(0);
    FragmentsSegments();
    ParameterSegments();
    ThreeMatch();
    if |items| == 1 { ItemMatch(items[0]); }
    if |items| == 2 { AllMatch(items); }
    FewSegments(items);
  }

  lemma FewSegments(items: seq<string>)
    ensures var three := ["", "api", "fragments"];
      && (items == [] ==> three + items == three)
      && (|items| == 1 ==> three + items == ["", "api", "fragments", items[0]])
  {}

  lemma DeleteDecided(rest: string)
    ensures Decides(REGISTERED, "DELETE", "/api/fragments/" + rest, DeleteRoute(rest))
  {
    hide Split, Match;
    ItemMatches(rest);
    var items, path := Split(rest, '/'), "/api/fragments/" + rest;
    assert forall k :: 0 <= k < 4 ==> !Takes(REGISTERED[k], "DELETE", path) by {
      assert "DELETE"[0] != "GET"[0] && "DELETE"[0] != "POST"[0];
    }
    assert Matches(REGISTERED[4], path) <==> |items| == 1;
  }

  // Above the collection there is no route.
  lemma AboveDecided(verb: string)
    ensures Decides(REGISTERED, verb, "/api/", NotFound)
  {
    hide CutAt, MatchSegments;
    AboveSegments();
    HealthDiffers();
    forall k | 0 <= k < 5 ensures !Matches(REGISTERED[k], "/api/") {
      RegisteredDepth(k);
      HealthSegments();
      hide Split;
      assert k > 0 ==> Depths(k) > 2;
    }
  }

  lemma AboveSegments()
    ensures Split("/api/", '/') == ["", "api"]
  {
    hide CutAt;
    SplitStep("api", "");
    SplitStep("", "api" + "/" + "");
    assert "/api/" == "" + "/" + ("api" + "/" + "");
  }

  lemma HealthDiffers()
    ensures MatchSegments(["", "health"], ["", "api"]) == None
  {
    assert "health"[0] != "api"[0];
  }

  // ---- Filling a pattern ----

  // The segments with each parameter replaced by its value.
  function Fill(segments: seq<string>, values: map<string, string>): seq<string>
    requires forall s :: s in segments && IsParam(s) ==> s[1..] in values
  {
    seq(|segments|, k requires 0 <= k < |segments| =>
      if IsParam(segments[k]) then assert segments[k] in segments; values[segments[k][1..]] else segments[k])
  }

  function Names(segments: seq<string>): set<string> {
    set s | s in segments && IsParam(s) :: s[1..]
  }

  // Matching the filled segments succeeds and gives back the values filled in,
  // and nothing else.
  lemma {:induction false} FilledMatches(segments: seq<string>, values: map<string, string>)
    requires forall s :: s in segments && IsParam(s) ==> s[1..] in values
    ensures MatchSegments(segments, Fill(segments, values)).Some?
    ensures var params := MatchSegments(segments, Fill(segments, values)).value;
      params.Keys == Names(segments) && forall name :: name in params ==> name in values && params[name] == values[name]
  {
    if segments == [] {
    } else {
      var n := |segments| - 1;
      var front := segments[..n];
      assert forall s :: s in front ==> s in segments;
      FilledMatches(front, values);
      FilledStep(segments, values);
      NamesStep(segments);
      hide Fill, Names;
    }
  }

  lemma FilledStep(segments: seq<string>, values: map<string, string>)
    requires segments != []
    requires forall s :: s in segments && IsParam(s) ==> s[1..] in values
    ensures var n := |segments| - 1;
      && (forall s :: s in segments[..n] && IsParam(s) ==> s[1..] in values)
      && Fill(segments, values)[..n] == Fill(segments[..n], values)
      && Fill(segments, values)[n] == if IsParam(segments[n]) then values[segments[n][1..]] else segments[n]
  {
    var n := |segments| - 1;
    assert forall s :: s in segments[..n] ==> s in segments;
    assert segments[n] in segments;
    assert Fill(segments, values)[..n] == Fill(segments[..n], values);
  }

  lemma NamesStep(segments: seq<string>)
    requires segments != []
    ensures var n := |segments| - 1;
      Names(segments) == if IsParam(segments[n]) then Names(segments[..n]) + {segments[n][1..]}
        else Names(segments[..n])
  {
    var n := |segments| - 1;
    assert segments == segments[..n] + [segments[n]];
    assert forall s :: s in segments <==> s in segments[..n] || s == segments[n];
  }

  lemma JoinedMatch(pp: seq<string>, cp: seq<string>)
    requires pp != [] && |pp| == |cp| && pp[|pp| - 1] != "" && cp[|cp| - 1] != ""
    requires forall k :: 0 <= k < |pp| ==> '/' !in pp[k] && '/' !in cp[k]
    ensures Match(Join(pp, '/'), Join(cp, '/')) == MatchSegments(pp, cp)
  {
    SplitJoin(pp, '/');
    SplitJoin(cp, '/');
    hide Split, Join, MatchSegments;
  }

  // A pattern filled with slash-free, non-empty values is a path it matches,
  // and the parameters come back as the values.
  lemma FilledPathMatches(segments: seq<string>, values: map<string, string>)
    requires segments != [] && segments[|segments| - 1] != ""
    requires forall s :: s in segments ==> '/' !in s
    requires forall s :: s in segments && IsParam(s) ==> s[1..] in values
    requires forall name :: name in values ==> values[name] != "" && '/' !in values[name]
    ensures var params := Match(Join(segments, '/'), Join(Fill(segments, values), '/'));
      params.Some? && params.value.Keys == Names(segments) &&
      forall name :: name in params.value ==> name in values && params.value[name] == values[name]
  {
    var filled := Fill(segments, values);
    forall k | 0 <= k < |segments| ensures '/' !in filled[k] && (segments[k] != "" ==> filled[k] != "") {
      assert segments[k] in segments;
    }
    assert |filled| == |segments| && filled[|segments| - 1] != "";
    hide *;
    JoinedMatch(segments, filled);
    FilledMatches(segments, values);
  }
}
