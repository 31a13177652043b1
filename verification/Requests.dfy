// server.cpp, auth.hpp and handlers.cpp together: from the bytes a connection
// delivers through the parser, the routes and the handlers to the table.

module Requests {
  import opened Options
  import opened Text
  import opened Numerals
  import opened Json
  import opened Fragments
  import opened Wire
  import opened Store
  import opened Query
  import opened Http
  import opened Routing
  import opened Handlers
  import RateLimiting

  // What one server is configured with.
  datatype Config = Config(tokens: seq<string>, maxBytes: nat)

  datatype Reply =
    | TooManyRequests
    | Preflight
    | PathUnknown
    | VerbUnknown
    | Healthy(count: nat)
    | Denied
    | MissingParameter
    | Posting(reply: PostReply)
    | Listing(rows: seq<Fragment>)
    | Deleted
    | NoSuchRow

  const BEARER: string := "bearer "

  // Auth::verify
  predicate Verifies(tokens: seq<string>, header: string) {
    if header == "" then false
    else if |header| >= 7 && Lower(header[..7]) == BEARER then Trim(header[7..]) in tokens
    else header in tokens
  }

  predicate Authorized(tokens: seq<string>, headers: map<string, string>) {
    "authorization" in headers && Verifies(tokens, headers["authorization"])
  }

  // What a dispatched request is answered, and the table it leaves.
  function Handle(outcome: Outcome, rows: seq<Fragment>, req: Request, cfg: Config, now: int): (Reply, seq<Fragment>) {
    var authorized := Authorized(cfg.tokens, req.headers);
    match outcome
    case NotFound => (PathUnknown, rows)
    case MethodNotAllowed => (VerbUnknown, rows)
    case NoContent => (Preflight, rows)
    case Handled(handler, params) =>
      match handler
      case Health => (Healthy(|rows|), rows)
      case PostFragment =>
        (match Refusal(authorized, req.body, cfg.maxBytes)
         case Some(refusal) => (Posting(refusal), rows)
         case None =>
           var f := BodyFragment(req.body);
           (Posting(if HasId(rows, CText(f.id)) then Duplicate else Created(f.id)),
            Posted(rows, req.body, now, cfg.maxBytes)))
      case GetFragments =>
        if !authorized then (Denied, rows)
        else (match FetchedFor(rows, req.queryParams)
              case None => (MissingParameter, rows)
              case Some(rs) => (Listing(rs), rows))
      case GetMessageFragments =>
        if !authorized then (Denied, rows)
        else (match Given(params, "message_id")
              case None => (MissingParameter, rows)
              case Some(m) => (Listing(Select(rows, OfMessage(CText(m)))), rows))
      case DeleteFragment =>
        if !authorized then (Denied, rows)
        else (match Given(params, "id")
              case None => (MissingParameter, rows)
              case Some(id) => (if HasId(rows, CText(id)) then Deleted else NoSuchRow, Delete(rows, id)))
  }

  // What a server with these rows answers to a request, and the rows it then holds.
  ghost predicate Answers(rows: seq<Fragment>, req: Request, cfg: Config, now: int, reply: Reply,
                          rows': seq<Fragment>) {
    if req.verb == "OPTIONS" then reply == Preflight && rows' == rows
    else exists outcome ::
      Decides(REGISTERED, req.verb, req.path, outcome) && Handle(outcome, rows, req, cfg, now) == (reply, rows')
  }

  function Arrived(chunks: seq<string>): Request { Parsed(ReadAll(Reader("", None, 0), chunks)) }

  // HttpServer::handle_connection: the limiter is asked before anything is read.
  method HandleConnection(limiter: RateLimiting.RateLimiter, db: Database, cfg: Config, ip: string, reading: int,
                          chunks: seq<string>, now: int)
    returns (reply: Reply)
    requires limiter.Valid() && db.Valid()
    modifies limiter, db
    ensures limiter.Valid() && db.Valid()
    ensures limiter.history == old(limiter.history) + [RateLimiting.Request(ip, reading)]
    ensures if RateLimiting.LastAllowed(limiter.max, RateLimiting.Readings(limiter.history, ip))
      then Answers(old(db.rows), Arrived(chunks), cfg, now, reply, db.rows)
      else reply == TooManyRequests && db.rows == old(db.rows)
  {
    var admitted := limiter.Allow(ip, reading);
    if !admitted { return TooManyRequests; }
    var req := ReadAndParse(chunks);
    var outcome := Dispatch(REGISTERED, req.verb, req.path);
    if outcome == NoContent { return Preflight; }
    assert Decides(REGISTERED, req.verb, req.path, outcome);
    match outcome {
      case NotFound => reply := PathUnknown;
      case MethodNotAllowed => reply := VerbUnknown;
      case Handled(handler, params) => reply := CallHandler(db, cfg, handler, req, params, now);
    }
  }

  method CallHandler(db: Database, cfg: Config, handler: Handler, req: Request, params: map<string, string>, now: int)
    returns (reply: Reply)
    requires db.Valid()
    modifies db
    ensures db.Valid()
    ensures Handle(Handled(handler, params), old(db.rows), req, cfg, now) == (reply, db.rows)
  {
    hide BodyFragment, Posted, Insert, Delete, Select, FetchedFor;
    var authorized := Authorized(cfg.tokens, req.headers);
    match handler {
      case Health =>
        var count := db.FragmentCount();
        reply := Healthy(count);
      case PostFragment =>
        var posting := PostHandler(db, authorized, req.body, now, cfg.maxBytes);
        reply := Posting(posting);
      case GetFragments =>
        if !authorized { return Denied; }
        var listing := GetHandler(db, req.queryParams);
        reply := if listing == None then MissingParameter else Listing(listing.value);
      case GetMessageFragments =>
        if !authorized { return Denied; }
        if "message_id" !in params || params["message_id"] == "" { return MissingParameter; }
        var listing := db.GetMessageFragments(params["message_id"]);
        reply := Listing(listing);
      case DeleteFragment =>
        if !authorized { return Denied; }
        if "id" !in params || params["id"] == "" { return MissingParameter; }
        var deleted := db.DeleteFragment(params["id"]);
        reply := if deleted then Deleted else NoSuchRow;
    }
  }

  // The answer is one.
  lemma AnswersOnce(rows: seq<Fragment>, req: Request, cfg: Config, now: int, r1: Reply, rows1: seq<Fragment>,
                    r2: Reply, rows2: seq<Fragment>)
    requires Answers(rows, req, cfg, now, r1, rows1) && Answers(rows, req, cfg, now, r2, rows2)
    ensures r1 == r2 && rows1 == rows2
  {
    hide Handle, Decides;
    if req.verb != "OPTIONS" {
      var o1 :| Decides(REGISTERED, req.verb, req.path, o1) && Handle(o1, rows, req, cfg, now) == (r1, rows1);
      var o2 :| Decides(REGISTERED, req.verb, req.path, o2) && Handle(o2, rows, req, cfg, now) == (r2, rows2);
      DecidesOneOutcome(REGISTERED, req.verb, req.path, o1, o2);
    }
  }

  // ---- The client's calls, from the connection to the table ----

  // The chunks recv delivers are some division of the stream.
  predicate Delivers(chunks: seq<string>, stream: string) {
    && Concat(chunks) == stream && |stream| <= MAX_REQUEST_BYTES
    && forall k :: 0 <= k < |chunks| ==> 0 < |chunks[k]| <= 8192
  }

  // The headers hold the client's token.
  predicate Bears(hs: seq<Header>, token: string) {
    var headers := HeaderMap(hs, map[]);
    "authorization" in headers && headers["authorization"] == "Bearer " + token && Trimmed(token)
  }

  lemma BearerIsToken(tokens: seq<string>, hs: seq<Header>, token: string)
    requires Bears(hs, token)
    ensures Authorized(tokens, HeaderMap(hs, map[])) <==> token in tokens
  {
    var header := "Bearer " + token;
    assert header[..7] == "Bearer " && header[7..] == token;
    assert Lower("Bearer ") == BEARER;
    TrimOfSpaced(token);
  }

  // A request is answered as its decision is handled.
  lemma AnsweredAs(outcome: Outcome, rows: seq<Fragment>, req: Request, cfg: Config, now: int, reply: Reply,
                   rows': seq<Fragment>)
    requires req.verb != "OPTIONS" && Decides(REGISTERED, req.verb, req.path, outcome)
    ensures Answers(rows, req, cfg, now, reply, rows') <==> (reply, rows') == Handle(outcome, rows, req, cfg, now)
  {
    hide Handle, Decides;
    var own := Handle(outcome, rows, req, cfg, now);
    assert Answers(rows, req, cfg, now, own.0, own.1);
    if Answers(rows, req, cfg, now, reply, rows') {
      AnswersOnce(rows, req, cfg, now, reply, rows', own.0, own.1);
    }
  }

  // The collection's path is the collection's pattern.
  lemma CollectionDecided()
    ensures Decides(REGISTERED, "POST", FRAGMENTS_PATH, Handled(PostFragment, map[]))
    ensures Decides(REGISTERED, "GET", FRAGMENTS_PATH, Handled(GetFragments, map[]))
  {
    hide Split, MatchSegments, CutAt;
    FragmentsSegments();
    ThreeMatch();
    assert REGISTERED[1] == Route("POST", FRAGMENTS_PATH, PostFragment);
    assert REGISTERED[2] == Route("GET", FRAGMENTS_PATH, GetFragments);
    RegisteredAt(1, "POST", FRAGMENTS_PATH);
    RegisteredAt(2, "GET", FRAGMENTS_PATH);
  }

  // What a server answers to the client's POST of a fragment, and what it then holds.
  function PostOutcome(rows: seq<Fragment>, f: Fragment, token: string, cfg: Config, now: int): (Reply, seq<Fragment>) {
    if token !in cfg.tokens then (Posting(Unauthorized), rows)
    else if |PostBody(f)| > cfg.maxBytes then (Posting(TooLarge), rows)
    else match FirstMissing(f)
      case Some(field) => (Posting(Missing(field)), rows)
      case None =>
        if HasId(rows, f.id) then (Posting(Duplicate), rows)
        else (Posting(Created(f.id)), rows + [f.(timestamp := now)])
  }

  lemma PostParsed(f: Fragment, hs: seq<Header>, chunks: seq<string>)
    requires GoodHeaders(hs) && AnnouncesBody(hs, PostBody(f))
    requires Delivers(chunks, PrintRequest("POST", FRAGMENTS_PATH, hs, PostBody(f)))
    ensures Arrived(chunks) == Request("POST", FRAGMENTS_PATH, HeaderMap(hs, map[]), map[], PostBody(f))
  {
    hide PrintRequest, PostBody, Parsed, ReadAll, UrlDecode, HeaderMap, GoodHeaders, AnnouncesBody, Concat;
    PathIsPlain();
    hide FRAGMENTS_PATH, MAX_REQUEST_BYTES;
    TokensUnbroken("POST", FRAGMENTS_PATH);
    PrintedParses("POST", FRAGMENTS_PATH, hs, PostBody(f), chunks);
    PlainDecodes(FRAGMENTS_PATH);
    CutMeaning(FRAGMENTS_PATH, "?");
  }

  lemma FetchParsed(chatId: string, since: int, hs: seq<Header>, chunks: seq<string>)
    requires Bytes(chatId) && GoodHeaders(hs) && Announced(hs) == None
    requires Delivers(chunks, PrintRequest("GET", FRAGMENTS_PATH + "?" + FragmentsQuery(chatId, since), hs, ""))
    ensures Arrived(chunks) ==
      Request("GET", FRAGMENTS_PATH, HeaderMap(hs, map[]), map["chat_id" := chatId, "since" := IntText(since)], "")
  {
    hide PrintRequest, Parsed, ReadAll, UrlDecode, HeaderMap, GoodHeaders, Announced, Concat, FragmentsQuery;
    FetchRequestArrives(chatId, since, hs, chunks);
  }

  lemma PostHandled(rows: seq<Fragment>, f: Fragment, token: string, hs: seq<Header>, req: Request, cfg: Config,
                    now: int)
    requires Sendable(f) && Bears(hs, token) && req.headers == HeaderMap(hs, map[]) && req.body == PostBody(f)
    ensures Handle(Handled(PostFragment, map[]), rows, req, cfg, now) == PostOutcome(rows, f, token, cfg, now)
  {
    hide PostBody, BodyFragment, Bears, HeaderMap, Authorized, Posted, HasId;
    BearerIsToken(cfg.tokens, hs, token);
    PostArrives(rows, f, now, cfg.maxBytes);
    SendableRead(f);
    hide Sendable;
  }

  lemma FetchHandled(rows: seq<Fragment>, chatId: string, since: int, token: string, hs: seq<Header>, req: Request,
                     cfg: Config, now: int)
    requires Printable(chatId) && chatId != "" && -INT64_BOUND <= since < INT64_BOUND && Bears(hs, token)
    requires req.headers == HeaderMap(hs, map[]) &&
      req.queryParams == map["chat_id" := chatId, "since" := IntText(since)]
    ensures Handle(Handled(GetFragments, map[]), rows, req, cfg, now) ==
      (if token !in cfg.tokens then Denied else Listing(Select(rows, ChatSince(chatId, since))), rows)
  {
    hide Bears, HeaderMap, Authorized, Select;
    BearerIsToken(cfg.tokens, hs, token);
    PrintableIsNulFree(chatId);
    IntegerRead(since, "");
    assert IntText(since) + "" == IntText(since);
    hide Printable, IntText;
  }

  lemma SendableRead(f: Fragment)
    requires Sendable(f)
    ensures PostBody(f) != "" && CText(f.id) == f.id
    ensures BodyFragment(PostBody(f)) == f.(timestamp := 0) && FirstMissing(f.(timestamp := 0)) == FirstMissing(f)
  {
    UnshadowedReached(f);
    PostBodyExact(f);
    PrintableIsNulFree(f.id);
  }

  // The POST of a sendable fragment, however recv divides it, adds the fragment
  // as it is, stamped by the server's clock: unless the token is not the
  // server's, the body is too large, a string is empty or the id is present,
  // and then the table stays as it was.
  lemma PostRequestArrives(rows: seq<Fragment>, f: Fragment, token: string, hs: seq<Header>, chunks: seq<string>,
                           cfg: Config, now: int, reply: Reply, rows': seq<Fragment>)
    requires Sendable(f)
    requires GoodHeaders(hs) && AnnouncesBody(hs, PostBody(f)) && Bears(hs, token)
    requires Delivers(chunks, PrintRequest("POST", FRAGMENTS_PATH, hs, PostBody(f)))
    ensures Answers(rows, Arrived(chunks), cfg, now, reply, rows') <==>
      (reply, rows') == PostOutcome(rows, f, token, cfg, now)
  {
    hide *;
    PostParsed(f, hs, chunks);
    CollectionDecided();
    AnsweredAs(Handled(PostFragment, map[]), rows, Arrived(chunks), cfg, now, reply, rows');
    PostHandled(rows, f, token, hs, Arrived(chunks), cfg, now);
  }

  // The GET of a chat's fragments is answered with the chat's rows stamped
  // after the cursor, and nothing else happens: unless the token is not the server's.
  lemma FetchRequestServed(rows: seq<Fragment>, chatId: string, since: int, token: string, hs: seq<Header>,
                           chunks: seq<string>, cfg: Config, now: int, reply: Reply, rows': seq<Fragment>)
    requires Bytes(chatId) && Printable(chatId) && chatId != "" && -INT64_BOUND <= since < INT64_BOUND
    requires GoodHeaders(hs) && Announced(hs) == None && Bears(hs, token)
    requires Delivers(chunks, PrintRequest("GET", FRAGMENTS_PATH + "?" + FragmentsQuery(chatId, since), hs, ""))
    ensures Answers(rows, Arrived(chunks), cfg, now, reply, rows') <==>
      (rows' == rows &&
       reply == if token !in cfg.tokens then Denied else Listing(Select(rows, ChatSince(chatId, since))))
  {
    hide *;
    FetchParsed(chatId, since, hs, chunks);
    CollectionDecided();
    AnsweredAs(Handled(GetFragments, map[]), rows, Arrived(chunks), cfg, now, reply, rows');
    FetchHandled(rows, chatId, since, token, hs, Arrived(chunks), cfg, now);
  }

  // ---- Deleting ----

  const ITEMS_PATH: string := "/api/fragments/"

  // The path deleteFragment's request is sent with: fetch resolves dot segments.
  function DeleteTarget(id: string): string
    requires Bytes(id)
  {
    EncodedStays(id);
    SentPath(["api", "fragments", EncodeComponent(id)])
  }

  // What of the path stays before the id, and what of the id.
  function BaseSent(id: string): string { if id == ".." then "/api/" else ITEMS_PATH }

  function ItemSent(id: string): string { if id == "." || id == ".." then "" else id }

  lemma DeleteTargetIs(id: string)
    requires Bytes(id)
    ensures Bytes(ItemSent(id)) && DeleteTarget(id) == BaseSent(id) + EncodeComponent(ItemSent(id))
  {
    hide EncodeComponent, SingleDot, DoubleDot, Join, SentPath, ResolveDots, PercentEncode;
    var e := EncodeComponent(id);
    EncodedStays(id);
    EncodedDots(id);
    SentBelow(e);
    Walk(e);
    JoinTwo("api", "");
    JoinThree("api", "fragments", if id == "." then "" else e);
    NothingEncodes();
    PathsSpelled(e);
  }

  lemma NothingEncodes()
    ensures EncodeComponent("") == ""
  {}

  lemma PathsSpelled(e: string)
    ensures "/" + ("api" + "/" + "") == "/api/"
    ensures "/" + ("api" + "/" + "fragments" + "/" + e) == ITEMS_PATH + e
  {}

  lemma JoinTwo(a: string, b: string)
    ensures Join([a, b], '/') == a + "/" + b
  {
    assert [a, b][1..] == [b];
  }

  lemma JoinThree(a: string, b: string, c: string)
    ensures Join([a, b, c], '/') == a + "/" + b + "/" + c
  {
    assert [a, b, c][1..] == [b, c];
    JoinTwo(b, c);
  }

  lemma SentBelow(e: string)
    requires Bytes(e) && PercentEncode(PathSet, e) == e
    ensures SentPath(["api", "fragments", e]) == "/" + Join(ResolveDots([], ["api", "fragments", e]), '/')
  {
    hide Join, ResolveDots, PercentEncode;
    NamesStay();
    var segments := ["api", "fragments", e];
    assert segments ==
      seq(3, k requires 0 <= k < 3 => assert segments[k] in segments; PercentEncode(PathSet, segments[k]));
  }

  lemma NamesStay()
    ensures Bytes("api") && PercentEncode(PathSet, "api") == "api"
    ensures Bytes("fragments") && PercentEncode(PathSet, "fragments") == "fragments"
  {
    LettersStay(PathSet, "api");
    LettersStay(PathSet, "fragments");
  }

  lemma NamesAreNoDots()
    ensures !SingleDot("api") && !DoubleDot("api") && !SingleDot("fragments") && !DoubleDot("fragments")
  {
    assert Lower("api")[0] == 'a' && |Lower("fragments")| == 9;
    assert "%2e"[0] == '%';
  }

  // The path state over the three segments.
  lemma Walk(e: string)
    ensures ResolveDots([], ["api", "fragments", e]) ==
      if DoubleDot(e) then ["api", ""] else if SingleDot(e) then ["api", "fragments", ""] else ["api", "fragments", e]
  {
    hide SingleDot, DoubleDot;
    NamesAreNoDots();
    var segments := ["api", "fragments", e];
    assert segments[1..] == ["fragments", e] && ["fragments", e][1..] == [e] && [e][1..] == [];
    assert DotStep([], "api", false) == ["api"] && DotStep(["api"], "fragments", false) == ["api", "fragments"];
    assert ["api", "fragments"][..1] == ["api"];
    hide DotStep;
    assert ResolveDots([], segments) == ResolveDots(["api"], ["fragments", e]);
    assert ResolveDots(["api"], ["fragments", e]) == ResolveDots(["api", "fragments"], [e]);
    assert ResolveDots(["api", "fragments"], [e]) == DotStep(["api", "fragments"], e, true);
  }

  // What a server answers to the client's DELETE of an id, and what it then
  // holds: the path is decoded before it is split, so a slash in the id counts
  // as a slash of the path.
  function DeleteOutcome(rows: seq<Fragment>, id: string, token: string, cfg: Config): (Reply, seq<Fragment>) {
    var items := Split(ItemSent(id), '/');
    if id == ".." then (PathUnknown, rows)
    else if |items| == 1 then
      if token !in cfg.tokens then (Denied, rows)
      else if items[0] == "" then (MissingParameter, rows)
      else (if HasId(rows, CText(items[0])) then Deleted else NoSuchRow, Delete(rows, items[0]))
    else (if items == [] || (|items| == 2 && items[1] == "all") then VerbUnknown else PathUnknown, rows)
  }

  lemma DeleteParsed(id: string, hs: seq<Header>, chunks: seq<string>)
    requires Bytes(id) && GoodHeaders(hs) && Announced(hs) == None
    requires Delivers(chunks, PrintRequest("DELETE", DeleteTarget(id), hs, ""))
    ensures Arrived(chunks) == Request("DELETE", BaseSent(id) + ItemSent(id), HeaderMap(hs, map[]), map[], "")
  {
    hide *;
    var target := DeleteTarget(id);
    DeleteTargetIs(id);
    ItemTarget(id);
    DeliversMeaning(chunks, PrintRequest("DELETE", target, hs, ""));
    AnnouncesNothing(hs);
    TokensUnbroken("DELETE", target);
    PrintedParses("DELETE", target, hs, "", chunks);
    TargetRead(HeaderMap(hs, map[]), id);
    ArrivedMeaning(chunks);
  }

  lemma DeliversMeaning(chunks: seq<string>, stream: string)
    requires Delivers(chunks, stream)
    ensures Concat(chunks) == stream && |stream| <= MAX_REQUEST_BYTES
    ensures forall k :: 0 <= k < |chunks| ==> 0 < |chunks[k]| <= 8192
  {}

  lemma AnnouncesNothing(hs: seq<Header>)
    requires Announced(hs) == None
    ensures AnnouncesBody(hs, "")
  {}

  lemma ArrivedMeaning(chunks: seq<string>)
    ensures Arrived(chunks) == Parsed(ReadAll(Reader("", None, 0), chunks))
  {}

  lemma ItemTarget(id: string)
    requires Bytes(ItemSent(id))
    ensures var target := BaseSent(id) + EncodeComponent(ItemSent(id));
      '\r' !in target && ' ' !in target && '?' !in target
  {
    hide EncodeComponent, ItemSent;
    EncodedIsToken(ItemSent(id));
  }

  lemma TargetRead(headers: map<string, string>, id: string)
    requires Bytes(ItemSent(id))
    ensures WithTarget(EMPTY_REQUEST.(verb := "DELETE", headers := headers, body := ""),
                       BaseSent(id) + EncodeComponent(ItemSent(id))) ==
      Request("DELETE", BaseSent(id) + ItemSent(id), headers, map[], "")
  {
    hide UrlDecode, EncodeComponent, CutAt, ItemSent;
    ItemTarget(id);
    DecodeEncoded(ItemSent(id));
    PlainPrefixDecodes(BaseSent(id), EncodeComponent(ItemSent(id)));
    CutMeaning(BaseSent(id) + EncodeComponent(ItemSent(id)), "?");
  }

  function DeleteDecision(id: string): Outcome { if id == ".." then NotFound else DeleteRoute(ItemSent(id)) }

  lemma DeleteHandled(rows: seq<Fragment>, id: string, token: string, hs: seq<Header>, req: Request, cfg: Config,
                      now: int)
    requires Bears(hs, token) && req.headers == HeaderMap(hs, map[])
    ensures Handle(DeleteDecision(id), rows, req, cfg, now) == DeleteOutcome(rows, id, token, cfg)
  {
    hide Bears, HeaderMap, Authorized, Split, HasId, Delete, ItemSent;
    BearerIsToken(cfg.tokens, hs, token);
  }

  // The DELETE the client sends for an id, whatever bytes it holds.
  lemma DeleteRequestServed(rows: seq<Fragment>, id: string, token: string, hs: seq<Header>, chunks: seq<string>,
                            cfg: Config, now: int, reply: Reply, rows': seq<Fragment>)
    requires Bytes(id) && GoodHeaders(hs) && Announced(hs) == None && Bears(hs, token)
    requires Delivers(chunks, PrintRequest("DELETE", DeleteTarget(id), hs, ""))
    ensures Answers(rows, Arrived(chunks), cfg, now, reply, rows') <==>
      (reply, rows') == DeleteOutcome(rows, id, token, cfg)
  {
    hide *;
    DeleteParsed(id, hs, chunks);
    ItemDecided(id);
    AnsweredAs(DeleteDecision(id), rows, Arrived(chunks), cfg, now, reply, rows');
    DeleteHandled(rows, id, token, hs, Arrived(chunks), cfg, now);
  }

  lemma ItemDecided(id: string)
    ensures Decides(REGISTERED, "DELETE", BaseSent(id) + ItemSent(id), DeleteDecision(id))
  {
    hide Decides, DeleteRoute;
    if id == ".." {
      AboveDecided("DELETE");
      assert "/api/" + "" == "/api/";
    } else {
      DeleteDecided(ItemSent(id));
    }
  }

  lemma SlashFreeSplits(id: string)
    requires id != "" && '/' !in id
    ensures Split(id, '/') == [id]
  {
    SplitEnd(id);
  }

  // One slash at the end is lost: the DELETE of "x/" deletes the row of x.
  lemma EndingSlashDeletesAnother(rows: seq<Fragment>, x: string, token: string, cfg: Config)
    requires x != "" && '/' !in x && token in cfg.tokens
    ensures DeleteOutcome(rows, x + "/", token, cfg).1 == Delete(rows, x)
  {
    SplitStep(x, "");
    assert x + "/" + "" == x + "/" && [x] + [] == [x];
    assert (x + "/")[|x|] == '/' && ItemSent(x + "/") == x + "/";
    assert Split("", '/') == [];
    hide Split;
  }

  // The first item of an id with a slash is not the id.
  lemma SlashCuts(id: string)
    requires '/' in id
    ensures Split(id, '/') != [] && |Split(id, '/')[0]| < |id| && Split(id, '/')[0] == id[..|Split(id, '/')[0]|]
  {
    CutMeaning(id, "/");
    var k :| 0 <= k < |id| && id[k] == '/';
    assert "/" <= id[k..];
  }

  function RowWithId(id: string): Fragment { Fragment(id, "m", "c", "s", "p", 0, 0) }

  lemma DeleteFromOne(r: Fragment, id: string)
    requires CText(id) == id
    ensures Delete([r], id) == if r.id == id then [] else [r]
  {
    var w := WithId(id);
    NotHolds(w, r);
    assert [r][..0] == [] && [r][0] == r;
    assert Filter([r], Not(w)) == Filter([r][..0], Not(w)) + if Holds(Not(w), r) then [r] else [];
  }

  // An id that stands in a path for itself: one segment that is no dot segment.
  predicate OneSegment(id: string) { id != "" && '/' !in id && id != "." && id != ".." }

  // For an id as the table holds them, the DELETE removes the id's row from
  // every table exactly when the id is one such segment.
  lemma DeleteReachesExactly(id: string, token: string, cfg: Config)
    requires CText(id) == id && token in cfg.tokens
    ensures (forall rows :: DeleteOutcome(rows, id, token, cfg).1 == Delete(rows, id)) <==> OneSegment(id)
  {
    if OneSegment(id) {
      SlashFreeSplits(id);
    } else {
      var r := RowWithId(id);
      DeleteFromOne(r, id);
      if '/' in id {
        SlashCuts(id);
        CTextKeeps(id);
        CTextKeeps(Split(id, '/')[0]);
        DeleteFromOne(r, Split(id, '/')[0]);
      }
      assert Split("", '/') == [];
      assert DeleteOutcome([r], id, token, cfg).1 == [r];
    }
  }
}
