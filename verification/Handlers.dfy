// handlers.cpp: validate and insert, fetch, and what a run of one server keeps.

module Handlers {
  import opened Options
  import opened Text
  import opened Numerals
  import opened Json
  import opened Fragments
  import opened Wire
  import opened Store
  import opened Query

  datatype PostReply =
    | Unauthorized
    | EmptyBody
    | TooLarge
    | Missing(field: string)
    | Duplicate
    | Created(id: string)

  // The first of the five strings that is empty, in the handler's order.
  function FirstMissing(f: Fragment): Option<string> {
    if f.id == "" then Some("id")
    else if f.messageId == "" then Some("message_id")
    else if f.chatId == "" then Some("chat_id")
    else if f.senderHash == "" then Some("sender_hash")
    else if f.payload == "" then Some("payload")
    else None
  }

  // A body the handler refuses before it touches the table.
  function Refusal(authorized: bool, body: string, maxBytes: nat): Option<PostReply> {
    if !authorized then Some(Unauthorized)
    else if body == "" then Some(EmptyBody)
    else if |body| > maxBytes then Some(TooLarge)
    else match FirstMissing(BodyFragment(body))
      case None => None
      case Some(field) => Some(Missing(field))
  }

  function Posted(rows: seq<Fragment>, body: string, now: int, maxBytes: nat): seq<Fragment> {
    if Refusal(true, body, maxBytes).Some? then rows
    else Insert(rows, BodyFragment(body).(timestamp := now))
  }

  // make_post_fragment_handler
  method PostHandler(db: Database, authorized: bool, body: string, now: int, maxBytes: nat) returns (reply: PostReply)
    requires db.Valid()
    modifies db
    ensures db.Valid()
    ensures match Refusal(authorized, body, maxBytes)
            case Some(r) => reply == r && db.rows == old(db.rows)
            case None =>
              && db.rows == Posted(old(db.rows), body, now, maxBytes)
              && (if HasId(old(db.rows), CText(BodyFragment(body).id))
                  then reply == Duplicate && db.rows == old(db.rows)
                  else reply == Created(BodyFragment(body).id) && |db.rows| == |old(db.rows)| + 1)
  {
    if !authorized { return Unauthorized; }
    if body == "" { return EmptyBody; }
    if |body| > maxBytes { return TooLarge; }
    var f := ReadFragment(body);
    assert f == BodyFragment(body);
    if f.id == "" { return Missing("id"); }
    if f.messageId == "" { return Missing("message_id"); }
    if f.chatId == "" { return Missing("chat_id"); }
    if f.senderHash == "" { return Missing("sender_hash"); }
    if f.payload == "" { return Missing("payload"); }
    f := f.(timestamp := now);
    var inserted := db.InsertFragment(f);
    reply := if inserted then Created(f.id) else Duplicate;
  }

  // The entry of a parameter map; a handler takes an empty one for a missing one.
  function Given(params: map<string, string>, name: string): Option<string> {
    if name in params && params[name] != "" then Some(params[name]) else None
  }

  function SinceOf(params: map<string, string>): int {
    match Given(params, "since")
    case None => 0
    case Some(text) => match Stoll(text) case None => 0 case Some(n) => n
  }

  // What the GET handler answers to the query's parameters; None is a 400.
  function FetchedFor(rows: seq<Fragment>, params: map<string, string>): Option<seq<Fragment>> {
    match Given(params, "chat_id")
    case None => None
    case Some(chatId) => Some(Select(rows, ChatSince(CText(chatId), SinceOf(params))))
  }

  function Fetched(rows: seq<Fragment>, queryText: string): Option<seq<Fragment>> {
    FetchedFor(rows, ParseQuery(queryText))
  }

  // make_get_fragments_handler: refused exactly without a chat id; otherwise
  // each row of the chat stamped after `since` as often as it is stored, by stamp.
  method GetHandler(db: Database, params: map<string, string>) returns (reply: Option<seq<Fragment>>)
    ensures reply == None <==> "chat_id" !in params || params["chat_id"] == ""
    ensures reply.Some? ==>
      && SortedByTime(reply.value)
      && multiset(reply.value) == multiset(Filter(db.rows, ChatSince(CText(params["chat_id"]), SinceOf(params))))
      && forall r :: r in reply.value <==>
           r in db.rows && r.chatId == CText(params["chat_id"]) && r.timestamp > SinceOf(params)
    ensures reply == FetchedFor(db.rows, params)
  {
    if "chat_id" !in params || params["chat_id"] == "" { return None; }
    var since := 0;
    if "since" in params && params["since"] != "" {
      var n := Stoll(params["since"]);
      since := if n == None then 0 else n.value;
    }
    var frags := db.GetFragments(params["chat_id"], since);
    reply := Some(frags);
  }

  // ---- From the client's calls to the table ----

  // Texts that reach the table as they are: printable, and mistaken for no later key.
  predicate Sendable(f: Fragment) {
    && AllPrintable(f) && Unshadowed(f)
    && -INT64_BOUND <= f.ttl < INT64_BOUND
  }

  // Posting a sendable fragment adds it, stamped by the server, unless a string
  // is empty, the body is too large or the id is present.
  lemma PostArrives(rows: seq<Fragment>, f: Fragment, now: int, maxBytes: nat)
    requires Sendable(f)
    ensures Posted(rows, PostBody(f), now, maxBytes) ==
      if |PostBody(f)| > maxBytes || FirstMissing(f).Some? || HasId(rows, f.id) then rows
      else rows + [f.(timestamp := now)]
  {
    UnshadowedReached(f);
    PostBodyExact(f);
    PrintableIsNulFree(f.id); PrintableIsNulFree(f.messageId); PrintableIsNulFree(f.chatId);
    PrintableIsNulFree(f.senderHash); PrintableIsNulFree(f.payload);
    assert PostBody(f) != "" && PostBody(f)[0] == '{';
    assert FirstMissing(f.(timestamp := 0)) == FirstMissing(f);
    hide PostBody, BodyFragment, Unshadowed, CText;
    assert Bound(f.(timestamp := now)) == f.(timestamp := now);
  }

  lemma PrintableIsNulFree(s: string)
    requires Printable(s)
    ensures CText(s) == s
  {
    CTextKeeps(s);
  }

  // Fetching with the client's query returns the chat's rows stamped after the cursor.
  lemma FetchReturns(rows: seq<Fragment>, chatId: string, since: int)
    requires Bytes(chatId) && Printable(chatId) && chatId != "" && -INT64_BOUND <= since < INT64_BOUND
    ensures Fetched(rows, FragmentsQuery(chatId, since)) == Some(Select(rows, ChatSince(chatId, since)))
  {
    hide FragmentsQuery, ParseQuery, Stoll, IntText, Select, Printable, CText;
    QueryRoundTrip(chatId, since);
    PrintableIsNulFree(chatId);
  }

  // ---- Runs of one server ----

  datatype Op = PostOp(body: string, now: int) | DeleteOp(id: string) | PurgeOp(now: int)

  function Apply(rows: seq<Fragment>, op: Op, maxBytes: nat): seq<Fragment> {
    match op
    case PostOp(body, now) => Posted(rows, body, now, maxBytes)
    case DeleteOp(id) => Delete(rows, id)
    case PurgeOp(now) => Purge(rows, now)
  }

  function Run(ops: seq<Op>, maxBytes: nat): seq<Fragment> {
    if ops == [] then [] else Apply(Run(ops[..|ops| - 1], maxBytes), ops[|ops| - 1], maxBytes)
  }

  // How many rows an operation reports to have added or removed: 1 for a POST
  // answered Created, 1 for a DELETE that found its row, the count a purge returns.
  function RowsAdded(rows: seq<Fragment>, op: Op, maxBytes: nat): nat {
    if op.PostOp? && Refusal(true, op.body, maxBytes) == None && !HasId(rows, CText(BodyFragment(op.body).id))
    then 1 else 0
  }

  function RowsRemoved(rows: seq<Fragment>, op: Op): nat {
    match op
    case PostOp(_, _) => 0
    case DeleteOp(id) => if HasId(rows, CText(id)) then 1 else 0
    case PurgeOp(now) => |Filter(rows, Expired(now))|
  }

  function TotalInserted(ops: seq<Op>, maxBytes: nat): nat {
    if ops == [] then 0
    else
      var n := |ops| - 1;
      TotalInserted(ops[..n], maxBytes) + RowsAdded(Run(ops[..n], maxBytes), ops[n], maxBytes)
  }

  function TotalRemoved(ops: seq<Op>, maxBytes: nat): nat {
    if ops == [] then 0
    else
      var n := |ops| - 1;
      TotalRemoved(ops[..n], maxBytes) + RowsRemoved(Run(ops[..n], maxBytes), ops[n])
  }

  lemma StepKeeps(rows: seq<Fragment>, op: Op, maxBytes: nat)
    requires UniqueIds(rows)
    ensures UniqueIds(Apply(rows, op, maxBytes))
    ensures |Apply(rows, op, maxBytes)| == |rows| + RowsAdded(rows, op, maxBytes) - RowsRemoved(rows, op)
  {
    match op
    case PostOp(body, now) =>
      hide BodyFragment;
    case DeleteOp(id) =>
      FilterUnique(rows, Not(WithId(CText(id))));
      FilterSplits(rows, WithId(CText(id)));
      DeleteRemovesOne(rows, CText(id));
    case PurgeOp(now) =>
      FilterUnique(rows, Not(Expired(now)));
      FilterSplits(rows, Expired(now));
  }

  // Over every run: ids are unique, and the row count is what was reported
  // inserted minus what was reported deleted and purged.
  lemma {:induction false} RunAccounts(ops: seq<Op>, maxBytes: nat)
    ensures UniqueIds(Run(ops, maxBytes))
    ensures |Run(ops, maxBytes)| == TotalInserted(ops, maxBytes) - TotalRemoved(ops, maxBytes)
  {
    if ops == [] {
    } else {
      RunAccounts(ops[..|ops| - 1], maxBytes);
      StepKeeps(Run(ops[..|ops| - 1], maxBytes), ops[|ops| - 1], maxBytes);
    }
  }

  // No operation alters a row: a row whose id is there before and after is the same row.
  lemma RowsUnaltered(ops: seq<Op>, op: Op, maxBytes: nat, r: Fragment, r': Fragment)
    requires r in Run(ops, maxBytes) && r' in Apply(Run(ops, maxBytes), op, maxBytes) && r.id == r'.id
    ensures r == r'
  {
    var rows := Run(ops, maxBytes);
    RunAccounts(ops, maxBytes);
    if !op.PostOp? {
      FilterMembers(rows, if op.DeleteOp? then Not(WithId(CText(op.id))) else Not(Expired(op.now)));
    } else {
      hide BodyFragment;
      assert r' in rows;
    }
    UniqueRow(rows, r, r');
  }

  predicate Filled(r: Fragment) { FirstMissing(r) == None }

  ghost predicate AllRowsFilled(rows: seq<Fragment>) { forall r :: r in rows ==> Filled(r) }

  predicate StartsNul(s: string) { s != "" && s[0] == '\0' }

  // A POST keeps all stored strings non-empty exactly when it adds no row one
  // of whose strings begins with NUL: the handler checks before the C-string
  // binding cuts the text.
  lemma FilledExactly(rows: seq<Fragment>, body: string, now: int, maxBytes: nat)
    requires AllRowsFilled(rows)
    ensures var f := BodyFragment(body);
      AllRowsFilled(Posted(rows, body, now, maxBytes)) <==>
      RowsAdded(rows, PostOp(body, now), maxBytes) == 0 ||
      !(StartsNul(f.id) || StartsNul(f.messageId) || StartsNul(f.chatId) || StartsNul(f.senderHash) ||
        StartsNul(f.payload))
  {
    var f := BodyFragment(body);
    hide BodyFragment;
    CTextKeeps(f.id); CTextKeeps(f.messageId); CTextKeeps(f.chatId); CTextKeeps(f.senderHash); CTextKeeps(f.payload);
    if RowsAdded(rows, PostOp(body, now), maxBytes) == 1 {
      var row := Bound(f.(timestamp := now));
      assert Posted(rows, body, now, maxBytes) == rows + [row];
      assert row in rows + [row];
    }
  }

  // Four members as a client prints them, and a payload of one NUL byte.
  const PLAIN_MEMBERS: seq<Member> := [
    Member("id", "i"), Member("message_id", "m"), Member("chat_id", "c"), Member("sender_hash", "s")
  ]

  const NUL_MEMBER: string := Quoted("payload") + (":" + ("\"" + "\0\"}"))

  const NUL_BODY: string := "{" + (Members(PLAIN_MEMBERS) + NUL_MEMBER)

  // A member whose key no value shadows is the one its key's search reaches.
  lemma {:induction false} UnshadowedIsReached(ms: seq<Member>, m: Member)
    requires m in ms
    requires forall n :: n in ms ==> !Shadows(n.value, m.key) && (n.key == m.key ==> n == m)
    ensures HasKey(ms, m.key) && Reached(ms, m.key) == Some(m.value)
  {
    hide Shadows;
    assert ms[0] in ms;
    if ms[0] == m {
    } else {
      assert forall n :: n in ms[1..] ==> n in ms;
      UnshadowedIsReached(ms[1..], m);
    }
  }

  predicate PlainMember(m: Member) {
    |m.value| == 1 && 'a' <= m.value[0] <= 'z' && GoodKey(m.key) && |m.key| > 1 && m.key != "payload"
  }

  lemma PlainMembersMeaning()
    ensures forall m :: m in PLAIN_MEMBERS ==> PlainMember(m)
    ensures forall m, n :: m in PLAIN_MEMBERS && n in PLAIN_MEMBERS && m.key == n.key ==> m == n
  {
    ShortKeys();
    LongKeys();
    hide GoodKey;
  }

  lemma PlainMembersRead()
    ensures forall m :: m in PLAIN_MEMBERS ==> GoodKey(m.key) && !Shadows(m.value, "payload") && m.key != "payload"
    ensures forall m :: m in PLAIN_MEMBERS ==>
      HasKey(PLAIN_MEMBERS, m.key) && Reached(PLAIN_MEMBERS, m.key) == Some(m.value)
    ensures forall m :: m in PLAIN_MEMBERS ==> Reread(m.value) == m.value && m.value != ""
  {
    PlainMembersMeaning();
    hide PLAIN_MEMBERS, Shadows, GoodKey, Reached, HasKey, Reread;
    forall m | m in PLAIN_MEMBERS
      ensures Reread(m.value) == m.value && forall key :: |key| > 1 ==> !Shadows(m.value, key)
    {
      LetterShadowsNothing(m.value);
      LetterReread(m.value);
    }
    forall m | m in PLAIN_MEMBERS
      ensures HasKey(PLAIN_MEMBERS, m.key) && Reached(PLAIN_MEMBERS, m.key) == Some(m.value)
    {
      UnshadowedIsReached(PLAIN_MEMBERS, m);
    }
  }

  lemma LetterReread(v: string)
    requires |v| == 1 && 'a' <= v[0] <= 'z'
    ensures Reread(v) == v
  {
    assert v[1..] == "";
  }

  lemma PayloadRead()
    ensures StringAt(NUL_BODY, "payload") == "\0"
  {
    PlainMembersRead();
    ShortKeys();
    hide Members, CutAt, Shadows, GoodKey;
    SkipBrace(Members(PLAIN_MEMBERS) + NUL_MEMBER, "payload");
    SearchPast(PLAIN_MEMBERS, "payload", NUL_MEMBER);
    AfterHere(Quoted("payload"), ":" + ("\"" + "\0\"}"));
    AfterHere(":", "\"" + "\0\"}");
    AfterHere("\"", "\0\"}");
    assert "\0\"}"[1..] == "\"}";
    assert Scan("\"}") == "";
  }

  lemma NulRead()
    ensures NUL_BODY != "" && FirstMissing(BodyFragment(NUL_BODY)) == None && BodyFragment(NUL_BODY).payload == "\0"
  {
    PlainMembersRead();
    var ms := PLAIN_MEMBERS;
    assert ms[0] in ms && ms[1] in ms && ms[2] in ms && ms[3] in ms;
    hide StringAt, IntAt, Members, Reached, Reread, Shadows, GoodKey;
    StringFound(ms, "id", NUL_MEMBER);
    StringFound(ms, "message_id", NUL_MEMBER);
    StringFound(ms, "chat_id", NUL_MEMBER);
    StringFound(ms, "sender_hash", NUL_MEMBER);
    PayloadRead();
  }

  // The handler takes this payload for a non-empty one, and an empty one is stored.
  lemma NulIsStoredEmpty(now: int, maxBytes: nat)
    requires |NUL_BODY| <= maxBytes
    ensures Refusal(true, NUL_BODY, maxBytes) == None
    ensures |Posted([], NUL_BODY, now, maxBytes)| == 1 && Posted([], NUL_BODY, now, maxBytes)[0].payload == ""
  {
    hide BodyFragment, NUL_BODY, CText;
    NulRead();
    CTextKeeps("\0");
  }

  // Over every run whose bodies bring no string that begins with NUL, all five
  // strings of every row are non-empty.
  lemma {:induction false} RunFilled(ops: seq<Op>, maxBytes: nat)
    requires forall k :: 0 <= k < |ops| && ops[k].PostOp? ==>
      var f := BodyFragment(ops[k].body);
      !(StartsNul(f.id) || StartsNul(f.messageId) || StartsNul(f.chatId) || StartsNul(f.senderHash) ||
        StartsNul(f.payload))
    ensures AllRowsFilled(Run(ops, maxBytes))
  {
    if ops == [] {
    } else {
      var n := |ops| - 1;
      var rows, op := Run(ops[..n], maxBytes), ops[n];
      RunFilled(ops[..n], maxBytes);
      match op
      case PostOp(body, now) => FilledExactly(rows, body, now, maxBytes);
      case DeleteOp(id) => FilterMembers(rows, Not(WithId(CText(id))));
      case PurgeOp(now) => FilterMembers(rows, Not(Expired(now)));
    }
  }
}
