// app.js: the client's state and the calls that change it. Network results,
// generated ids, the clock and the cipher are parameters.

module Clients {
  import opened Options
  import opened Numerals
  import opened Fragments
  import opened Base64
  import opened Payload
  import opened Polling
  import opened Accounts
  import opened Sharing

  class Chat {
    const id: string
    const name: string
    const serverIds: seq<string>
    const chatId: string
    const keyB64: string
    var lastSince: int

    constructor (id: string, name: string, serverIds: seq<string>, chatId: string, keyB64: string)
      ensures this.id == id && this.name == name && this.serverIds == serverIds
      ensures this.chatId == chatId && this.keyB64 == keyB64 && lastSince == 0
    {
      this.id, this.name, this.serverIds, this.chatId, this.keyB64 := id, name, serverIds, chatId, keyB64;
      lastSince := 0;
    }
  }

  function FindChat(chats: seq<Chat>, id: string): Option<Chat> {
    if chats == [] then None
    else if chats[0].id == id then Some(chats[0])
    else FindChat(chats[1..], id)
  }

  function Without(chats: seq<Chat>, id: string): seq<Chat> {
    if chats == [] then [] else (if chats[0].id == id then [] else [chats[0]]) + Without(chats[1..], id)
  }

  // ---- The grouping loops of pollChat ----

  // An entry of byMessage.
  datatype Info = Info(sender: string, timestamp: int, pieces: map<nat, string>)

  // byMessage after the results so far, the last of them possibly cut short:
  // sender and stamp from the first fragment seen, one payload per server position.
  ghost predicate Grouped(keys: seq<string>, table: map<string, Info>, results: seq<seq<Fragment>>) {
    && keys == KeyOrder(Flatten(results))
    && (forall m :: m in table <==> m in keys)
    && EntriesOk(table, results)
  }

  ghost predicate Entry(info: Info, results: seq<seq<Fragment>>, m: string)
    requires Has(Flatten(results), m)
  {
    && info.sender == First(Flatten(results), m).senderHash
    && info.timestamp == First(Flatten(results), m).timestamp
    && PiecesOf(info.pieces, results, m)
  }

  ghost predicate PiecesOf(pieces: map<nat, string>, results: seq<seq<Fragment>>, m: string) {
    && (forall k :: k in pieces <==> 0 <= k < |results| && Has(results[k], m))
    && (forall k :: k in pieces ==> pieces[k] == Last(results[k], m).payload)
  }

  lemma LastAppend(frags: seq<Fragment>, f: Fragment, m: string)
    requires Has(frags + [f], m)
    ensures Last(frags + [f], m) == if f.messageId == m then f else (HasAppend(frags, f, m); Last(frags, m))
  {
    var more := frags + [f];
    HasAppend(frags, f, m);
    assert more[..|more| - 1] == frags;
  }

  // Results that differ by one more fragment of the last server, k.
  ghost predicate OneMore(was: seq<seq<Fragment>>, now: seq<seq<Fragment>>, k: nat, f: Fragment) {
    |was| == |now| == k + 1 && was[..k] == now[..k] && now[k] == was[k] + [f]
  }

  lemma FlattenMore(was: seq<seq<Fragment>>, now: seq<seq<Fragment>>, k: nat, f: Fragment)
    requires OneMore(was, now, k, f)
    ensures Flatten(now) == Flatten(was) + [f]
  {}

  // The pieces of message n after it.
  lemma PiecesGrow(pieces: map<nat, string>, was: seq<seq<Fragment>>, now: seq<seq<Fragment>>, k: nat, f: Fragment,
                   n: string)
    requires PiecesOf(pieces, was, n) && OneMore(was, now, k, f)
    ensures PiecesOf(if f.messageId == n then pieces[k := f.payload] else pieces, now, n)
  {
    HasAppend(was[k], f, n);
    if Has(now[k], n) { LastAppend(was[k], f, n); }
    assert forall j :: 0 <= j < k ==> now[j] == was[..k][j] == was[j];
    hide Has, Last;
  }

  ghost predicate EntryOrNew(info: Info, was: seq<seq<Fragment>>, f: Fragment, n: string) {
    if Has(Flatten(was), n) then Entry(info, was, n)
    else f.messageId == n && info == Info(f.senderHash, f.timestamp, map[])
  }

  lemma NewHasNoPieces(was: seq<seq<Fragment>>, n: string)
    requires !Has(Flatten(was), n)
    ensures PiecesOf(map[], was, n)
  {
    forall k | 0 <= k < |was| ensures !Has(was[k], n) {
      if Has(was[k], n) { FlattenHas(was, n, k); }
    }
    hide Has;
  }

  // The entry of message n after it.
  lemma EntryGrows(info: Info, was: seq<seq<Fragment>>, now: seq<seq<Fragment>>, k: nat, f: Fragment, n: string)
    requires EntryOrNew(info, was, f, n) && OneMore(was, now, k, f)
    ensures Has(Flatten(now), n)
    ensures Entry(if f.messageId == n then info.(pieces := info.pieces[k := f.payload]) else info, now, n)
  {
    var flat := Flatten(was);
    FlattenMore(was, now, k, f);
    HasAppend(flat, f, n);
    FirstAppend(flat, f, n);
    hide Has, First, Flatten, PiecesOf, OneMore;
    if !Has(flat, n) { NewHasNoPieces(was, n); }
    PiecesGrow(info.pieces, was, now, k, f, n);
  }

  ghost predicate EntriesOk(table: map<string, Info>, results: seq<seq<Fragment>>) {
    forall m :: m in table ==> Has(Flatten(results), m) && Entry(table[m], results, m)
  }

  function Grown(table: map<string, Info>, k: nat, f: Fragment): map<string, Info> {
    var info := if f.messageId in table then table[f.messageId] else Info(f.senderHash, f.timestamp, map[]);
    table[f.messageId := info.(pieces := info.pieces[k := f.payload])]
  }

  lemma EntriesGrow(table: map<string, Info>, was: seq<seq<Fragment>>, now: seq<seq<Fragment>>, k: nat, f: Fragment)
    requires EntriesOk(table, was) && OneMore(was, now, k, f) && (forall m :: Has(Flatten(was), m) ==> m in table)
    ensures EntriesOk(Grown(table, k, f), now)
  {
    hide Entry, Flatten, Has, OneMore;
    forall n | n in Grown(table, k, f) ensures Has(Flatten(now), n) && Entry(Grown(table, k, f)[n], now, n) {
      var info := if n in table then table[n] else Info(f.senderHash, f.timestamp, map[]);
      EntryGrows(info, was, now, k, f, n);
    }
  }

  // The entries and their order after it.
  lemma GroupStep(keys: seq<string>, table: map<string, Info>, was: seq<seq<Fragment>>, now: seq<seq<Fragment>>,
                  k: nat, f: Fragment)
    requires Grouped(keys, table, was) && OneMore(was, now, k, f)
    ensures Grouped(if f.messageId in table then keys else keys + [f.messageId], Grown(table, k, f), now)
  {
    hide Entry, Has, OneMore;
    FlattenMore(was, now, k, f);
    KeyOrderMore(Flatten(was), f);
    KeyOrderMeaning(Flatten(was));
    hide Flatten, KeyOrder;
    EntriesGrow(table, was, now, k, f);
  }

  lemma KeyOrderMore(frags: seq<Fragment>, f: Fragment)
    ensures KeyOrder(frags + [f]) == if f.messageId in KeyOrder(frags) then KeyOrder(frags)
      else KeyOrder(frags) + [f.messageId]
  {
    assert (frags + [f])[..|frags|] == frags;
  }

  lemma GroupNext(keys: seq<string>, table: map<string, Info>, results: seq<seq<Fragment>>)
    requires Grouped(keys, table, results)
    ensures Grouped(keys, table, results + [[]])
  {
    var next := results + [[]];
    assert next[..|next| - 1] == results;
    assert Flatten(next) == Flatten(results);
    assert forall m :: !Has([], m);
  }

  // One fragment entered into byMessage.
  method GroupOne(keys: seq<string>, table: map<string, Info>, frag: Fragment, serverIdx: nat)
    returns (keys': seq<string>, table': map<string, Info>)
    ensures keys' == if frag.messageId in table then keys else keys + [frag.messageId]
    ensures table' == Grown(table, serverIdx, frag)
  {
    keys', table' := keys, table;
    if frag.messageId !in table {
      keys' := keys' + [frag.messageId];
      table' := table'[frag.messageId := Info(frag.senderHash, frag.timestamp, map[])];
    }
    var info := table'[frag.messageId];
    table' := table'[frag.messageId := info.(pieces := info.pieces[serverIdx := frag.payload])];
  }

  method GroupFragments(results: seq<seq<Fragment>>) returns (keys: seq<string>, table: map<string, Info>)
    ensures Grouped(keys, table, results)
  {
    keys, table := [], map[];
    var i := 0;
    hide *;
    GroupedEmpty();
    while i < |results|
      invariant 0 <= i <= |results|
      invariant Grouped(keys, table, results[..i])
    {
      var frags := results[i];
      GroupNext(keys, table, results[..i]);
      assert frags[..0] == [];
      var j := 0;
      while j < |frags|
        invariant 0 <= j <= |frags|
        invariant Grouped(keys, table, results[..i] + [frags[..j]])
      {
        assert frags[..j + 1] == frags[..j] + [frags[j]];
        var was, now := results[..i] + [frags[..j]], results[..i] + [frags[..j + 1]];
        GroupStep(keys, table, was, now, i, frags[j]) by { OneMoreOf(results[..i], frags, j); }
        keys, table := GroupOne(keys, table, frags[j], i);
        j := j + 1;
      }
      assert frags[..j] == frags;
      assert results[..i + 1] == results[..i] + [frags];
      i := i + 1;
    }
    assert results[..i] == results;
  }

  lemma OneMoreOf(front: seq<seq<Fragment>>, frags: seq<Fragment>, j: nat)
    requires j < |frags|
    ensures OneMore(front + [frags[..j]], front + [frags[..j + 1]], |front|, frags[j])
  {
    assert frags[..j + 1] == frags[..j] + [frags[j]];
  }

  lemma GroupedEmpty()
    ensures Grouped([], map[], [])
  {}

  // ---- One message of the second loop ----

  lemma {:induction false} PositionCount(ps: set<nat>, n: nat)
    requires forall k :: k in ps ==> k < n
    ensures |ps| <= n
    ensures |ps| == n <==> forall k :: 0 <= k < n ==> k in ps
  {
    if n > 0 {
      PositionCount(ps - {n - 1}, n - 1);
      if n - 1 in ps {
        assert |ps| == |ps - {n - 1}| + 1;
      } else {
        assert ps - {n - 1} == ps;
      }
    } else {
      assert ps == {};
    }
  }

  // The size check lets through exactly the complete messages.
  lemma SizeCheck(info: Info, results: seq<seq<Fragment>>, m: string)
    requires Has(Flatten(results), m) && Entry(info, results, m)
    ensures |info.pieces| < |results| <==> !Complete(results, m)
    ensures Complete(results, m) ==> forall k :: 0 <= k < |results| ==> k in info.pieces
  {
    PositionCount(info.pieces.Keys, |results|);
  }

  lemma {:induction false} FirstOfFirst(results: seq<seq<Fragment>>, m: string)
    requires results != [] && Has(results[0], m)
    ensures Has(Flatten(results), m) && First(Flatten(results), m) == First(results[0], m)
  {
    FlattenHas(results, m, 0);
    var n := |results| - 1;
    if n == 0 {
      assert Flatten(results) == [] + results[0];
      assert [] + results[0] == results[0];
    } else {
      FirstOfFirst(results[..n], m);
      FirstConcat(Flatten(results[..n]), results[n], m);
    }
  }

  lemma {:induction false} FirstConcat(a: seq<Fragment>, b: seq<Fragment>, m: string)
    requires Has(a, m)
    ensures Has(a + b, m) && First(a + b, m) == First(a, m)
  {
    HasConcat(a, b, m);
    if a[0].messageId == m {
    } else {
      HasRest(a, m);
      FirstConcat(a[1..], b, m);
      assert (a + b)[1..] == a[1..] + b;
    }
  }

  // The reassembly loop, with its own check for a missing position.
  method Reassemble(pieces: map<nat, string>, n: nat) returns (ordered: seq<string>)
    ensures (forall k :: 0 <= k < n ==> k in pieces) ==>
      |ordered| == n && forall k :: 0 <= k < n ==> ordered[k] == pieces[k]
    ensures (exists k :: 0 <= k < n && k !in pieces) ==> ordered == []
  {
    ordered := [];
    var i := 0;
    while i < n
      invariant 0 <= i <= n && |ordered| == i
      invariant forall k :: 0 <= k < i ==> k in pieces && ordered[k] == pieces[k]
    {
      if i !in pieces {
        ordered := [];
        return;
      }
      ordered := ordered + [pieces[i]];
      i := i + 1;
    }
  }

  // One turn of the second loop: None where the source continues.
  method NewMessage(messageId: string, info: Info, results: seq<seq<Fragment>>, existing: set<string>,
                    chatId: string, open: string -> Option<string>) returns (msg: Option<Message>)
    requires results != [] && Has(Flatten(results), messageId) && Entry(info, results, messageId)
    ensures msg == if messageId !in existing && Complete(results, messageId)
                   then Some(Assembled(chatId, results, messageId, open)) else None
  {
    SizeCheck(info, results, messageId);
    if messageId in existing { return None; }
    if |info.pieces| < |results| { return None; }
    var ordered := Reassemble(info.pieces, |results|);
    assert ordered == Pieces(results, messageId);
    if |ordered| == 0 { return None; }
    FirstOfFirst(results, messageId);
    var plain := open(JoinPayload(ordered));
    var text := match plain case None => FAILED case Some(t) => t;
    msg := Some(Message(messageId, chatId, info.sender, text, info.timestamp, "received"));
  }

  // ---- Sending ----

  datatype SendResult =
    | NoActiveChat
    | NoIdentity
    | NoServers
    | AllFailed
    | Warning(failed: nat, total: nat)
    | Sent

  // The fragment for the server at position i.
  function FragmentFor(messageId: string, chatId: string, sender: string, cipher: string, ttl: nat, n: nat,
                       i: nat): Fragment
    requires 1 <= n && i < n
  {
    Fragment(messageId + "-" + Decimal(i), messageId, chatId, sender, SplitPayload(cipher, n)[i], 0, ttl)
  }

  function Posts(messageId: string, chatId: string, sender: string, cipher: string, ttl: nat, n: nat): seq<Fragment>
    requires n >= 1
  {
    seq(n, i requires 0 <= i < n => FragmentFor(messageId, chatId, sender, cipher, ttl, n, i))
  }

  // Fragments that together carry an encrypted text: one message and chat, an
  // id each, and payloads that join to the text in this order.
  ghost predicate Carrying(posts: seq<Fragment>, messageId: string, chatId: string, sender: string, encrypted: string) {
    && (forall f :: f in posts ==> f.messageId == messageId && f.chatId == chatId && f.senderHash == sender)
    && (forall i, j :: 0 <= i < j < |posts| ==> posts[i].id != posts[j].id)
    && JoinPayload(seq(|posts|, i requires 0 <= i < |posts| => posts[i].payload)) == encrypted
  }

  lemma PostsCarry(messageId: string, chatId: string, sender: string, encrypted: string, ttl: nat, n: nat)
    requires n >= 1
    ensures Carrying(Posts(messageId, chatId, sender, encrypted, ttl, n), messageId, chatId, sender, encrypted)
  {
    var posts := Posts(messageId, chatId, sender, encrypted, ttl, n);
    forall i, j | 0 <= i < j < n ensures posts[i].id != posts[j].id {
      ValueOfDecimal(i);
      ValueOfDecimal(j);
      assert posts[i].id[|messageId| + 1..] == Decimal(i) && posts[j].id[|messageId| + 1..] == Decimal(j);
    }
    JoinSplit(encrypted, n);
    assert seq(n, i requires 0 <= i < n => posts[i].payload) == SplitPayload(encrypted, n);
  }

  // How many of the n posts were rejected: all or none.
  lemma {:induction false} RejectedCount(rejected: set<nat>, n: nat)
    ensures |set i | i in rejected && i < n| <= n
    ensures |set i | i in rejected && i < n| == 0 <==> forall i :: i in rejected ==> i >= n
    ensures |set i | i in rejected && i < n| == n <==> forall i :: 0 <= i < n ==> i in rejected
  {
    var failed := set i | i in rejected && i < n;
    if n == 0 {
    } else {
      RejectedCount(rejected, n - 1);
      var before := set i | i in rejected && i < n - 1;
      assert failed == if n - 1 in rejected then before + {n - 1} else before;
    }
    assert |failed| == 0 ==> failed == {};
    assert forall i :: i in rejected && i < n ==> i in failed;
  }

  // ---- The client ----

  function HeldIn(messages: map<string, seq<Message>>, c: string): seq<Message> {
    if c in messages then messages[c] else []
  }

  function UnreadIn(unread: map<string, nat>, c: string): nat {
    if c in unread then unread[c] else 0
  }

  // Messages pushed onto a chat's list, which is created by the first push.
  function Push(messages: map<string, seq<Message>>, c: string, added: seq<Message>): map<string, seq<Message>> {
    if added == [] then messages else messages[c := HeldIn(messages, c) + added]
  }

  function Raise(unread: map<string, nat>, c: string, n: nat): map<string, nat> {
    if n == 0 then unread else unread[c := UnreadIn(unread, c) + n]
  }

  ghost predicate DistinctLists(messages: map<string, seq<Message>>) {
    forall c :: c in messages ==> DistinctIds(messages[c])
  }

  // Every counter is the backlog of its chat.
  ghost predicate Counted(unread: map<string, nat>, log: seq<Event>) {
    forall c :: UnreadIn(unread, c) == Backlog(log, c)
  }

  lemma PushKeepsDistinct(messages: map<string, seq<Message>>, c: string, added: seq<Message>)
    requires DistinctLists(messages) && DistinctIds(added)
    requires forall m :: m in Ids(added) ==> m !in Ids(HeldIn(messages, c))
    ensures DistinctLists(Push(messages, c, added))
  {
    var base := HeldIn(messages, c);
    forall i, j | 0 <= i < |base| && 0 <= j < |added| ensures base[i].id != added[j].id {
      assert base[i].id in Ids(base) && added[j].id in Ids(added);
    }
  }

  lemma CountedAfter(unread: map<string, nat>, log: seq<Event>, e: Event, unread': map<string, nat>)
    requires Counted(unread, log)
    requires unread' == match e
                        case Opened(None) => unread
                        case Opened(Some(c)) => if UnreadIn(unread, c) == 0 then unread else unread[c := 0]
                        case Removed(_) => unread
                        case Polled(c, n) => if ActiveAfter(log) == Some(c) then unread else Raise(unread, c, n)
    ensures Counted(unread', log + [e])
    ensures ActiveAfter(log + [e]) == match e
                                      case Opened(d) => d
                                      case Removed(d) => if ActiveAfter(log) == Some(d) then None else ActiveAfter(log)
                                      case Polled(_, _) => ActiveAfter(log)
  {
    forall c ensures UnreadIn(unread', c) == Backlog(log + [e], c) {
      BacklogStep(log, e, c);
      assert UnreadIn(unread, c) == Backlog(log, c);
    }
    BacklogStep(log, e, "");
  }

  class Client {
    var identity: Option<string>
    var servers: seq<Server>
    var chats: seq<Chat>
    var messages: map<string, seq<Message>>
    var activeChatId: Option<string>
    var unread: map<string, nat>
    ghost var log: seq<Event>

    // No chat holds a message id twice; every unread counter is the backlog of
    // its chat; the open chat is the one last opened and not removed since.
    ghost predicate Valid()
      reads this
    {
      && DistinctLists(messages)
      && Counted(unread, log)
      && activeChatId == ActiveAfter(log)
      && UniqueServerIds(servers)
    }

    constructor (identity: Option<string>)
      ensures Valid() && log == [] && servers == [] && chats == [] && messages == map[]
      ensures this.identity == identity
    {
      this.identity := identity;
      servers, chats, messages := [], [], map[];
      activeChatId, unread, log := None, map[], [];
    }

    // The open chat has nothing unread.
    lemma ActiveIsRead(c: string)
      requires Valid() && activeChatId == Some(c)
      ensures UnreadIn(unread, c) == 0
    {
      ActiveHasNoBacklog(log, c);
    }

    // setActiveChat; None closes the open chat.
    method SetActiveChat(c: Option<string>)
      requires Valid()
      modifies this`activeChatId, this`messages, this`unread, this`log
      ensures Valid() && log == old(log) + [Opened(c)] && activeChatId == c
      ensures messages == if c == None || c.value in old(messages) then old(messages) else old(messages)[c.value := []]
      ensures forall d :: UnreadIn(unread, d) == if c == Some(d) then 0 else UnreadIn(old(unread), d)
    {
      activeChatId := c;
      if c != None {
        if c.value !in messages { messages := messages[c.value := []]; }
        if UnreadIn(unread, c.value) != 0 { unread := unread[c.value := 0]; }
      }
      CountedAfter(old(unread), log, Opened(c), unread);
      log := log + [Opened(c)];
    }

    // removeChat; the unread counter stays.
    method RemoveChat(c: string)
      requires Valid()
      modifies this`chats, this`messages, this`activeChatId, this`log
      ensures Valid() && log == old(log) + [Removed(c)]
      ensures chats == Without(old(chats), c) && messages == old(messages) - {c}
      ensures activeChatId == if old(activeChatId) == Some(c) then None else old(activeChatId)
    {
      chats := Without(chats, c);
      messages := messages - {c};
      if activeChatId == Some(c) { activeChatId := None; }
      CountedAfter(unread, log, Removed(c), unread);
      log := log + [Removed(c)];
    }

    // createChat, given the generated id; the chat id and key are always provided or generated before.
    method CreateChat(id: string, name: string, serverIds: seq<string>, chatId: string, keyB64: string)
      returns (r: Result<Chat>)
      requires Valid()
      modifies this`chats, this`messages
      ensures Valid()
      ensures r.Ok? <==> name != "" && serverIds != []
      ensures r.Error? ==> chats == old(chats) && messages == old(messages)
      ensures r.Ok? ==>
        && chats == old(chats) + [r.value] && messages == old(messages)[id := []] && fresh(r.value)
        && r.value.id == id && r.value.serverIds == serverIds && r.value.chatId == chatId && r.value.keyB64 == keyB64
        && r.value.lastSince == 0
    {
      if name == "" { return Error("Chat name required"); }
      if serverIds == [] { return Error("Select at least one server"); }
      var chat := new Chat(id, name, serverIds, chatId, keyB64);
      chats := chats + [chat];
      messages := messages[id := []];
      r := Ok(chat);
    }

    // addServer, given the generated id.
    method AddServer(id: string, url: string, token: string, title: string) returns (r: Result<Server>)
      requires Valid() && id !in ServerIds(servers)
      modifies this`servers
      ensures Valid()
      ensures r.Ok? <==> url != "" && token != ""
      ensures r.Error? ==> servers == old(servers)
      ensures r.Ok? ==> r.value == NewServer(id, url, token, title) && servers == old(servers) + [r.value]
    {
      if url == "" || token == "" { return Error("URL and token are required"); }
      var server := NewServer(id, url, token, title);
      forall s | s in servers ensures s.id != id { assert s.id in ServerIds(servers); }
      servers := servers + [server];
      r := Ok(server);
    }

    // exportChat up to JSON.stringify.
    method ExportChat(c: string) returns (r: Result<Invite>)
      ensures match FindChat(chats, c)
              case None => r.Error?
              case Some(chat) =>
                match Exported(servers, chat.serverIds)
                case None => r.Error?
                case Some(invited) => r == Ok(Invite(chat.name, chat.chatId, chat.keyB64, invited))
    {
      var found := FindChat(chats, c);
      if found == None { return Error("Chat not found"); }
      var chat := found.value;
      var invited: seq<Invited> := [];
      var rest := chat.serverIds;
      ExportStep(servers, rest, []);
      while rest != []
        invariant Exported(servers, chat.serverIds) == Behind(invited, Exported(servers, rest))
        decreases |rest|
      {
        ExportStep(servers, rest, invited);
        var s := FindServer(servers, rest[0]);
        if s == None { return Error("Server not found"); }
        invited, rest := invited + [Invited(s.value.url, s.value.token, s.value.title)], rest[1..];
      }
      ExportStep(servers, rest, invited);
      r := Ok(Invite(chat.name, chat.chatId, chat.keyB64, invited));
    }

    // importChat after JSON.parse, up to createChat: `ids` are the ids that
    // generateId hands out. On an error the servers added before it stay.
    method ImportServers(invited: seq<Invited>, ids: seq<string>) returns (serverIds: seq<string>, ok: bool)
      requires Valid() && |invited| <= |ids| && FreshIds(servers, ids)
      modifies this`servers
      ensures Valid()
      ensures Imported(old(servers), invited, ids) == Import(servers, serverIds, ok)
    {
      hide Imported, Prepend, FreshIds;
      serverIds, ok := [], true;
      var rest, left := invited, ids;
      ImportStep(servers, rest, left, []);
      while rest != []
        invariant Valid() && |rest| <= |left| && FreshIds(servers, left) && ok
        invariant Imported(old(servers), invited, ids) == Prepend(serverIds, Imported(servers, rest, left))
        decreases |rest|
      {
        var s := rest[0];
        ImportStep(servers, rest, left, serverIds);
        var existing := FindEqual(servers, s.url, s.token);
        if existing == None {
          FreshStep(servers, left, s);
          var added := AddServer(left[0], s.url, s.token, s.title);
          if added.Error? { return serverIds, false; }
          existing := Some(added.value);
          left := left[1..];
        }
        serverIds := serverIds + [existing.value.id];
        rest := rest[1..];
      }
      ImportStep(servers, rest, left, serverIds);
    }

    // sendMessage, given the message id it generates, the random IV, the clock
    // in seconds and the posts that are rejected. `posts` are the fragments it
    // posts, one per resolved server.
    method SendMessage(text: string, ttl: int, cipher: Cipher, messageId: string, iv: seq<Byte>, now: int,
                       rejected: set<nat>)
      returns (r: SendResult, posts: seq<Fragment>)
      requires Valid()
      requires forall c :: c in messages ==> messageId !in Ids(messages[c])
      modifies this`messages
      ensures Valid()
      ensures var chat := if activeChatId == None then None else FindChat(chats, activeChatId.value);
        if chat == None then r == NoActiveChat && posts == [] && messages == old(messages)
        else if identity == None then r == NoIdentity && posts == [] && messages == old(messages)
        else if Resolve(servers, chat.value.serverIds) == []
        then r == NoServers && posts == [] && messages == old(messages)
        else
          var n, c := |Resolve(servers, chat.value.serverIds)|, chat.value;
          var failed := |set i | i in rejected && i < n|;
          && posts == Posts(messageId, c.chatId, identity.value, Encrypt(cipher, c.keyB64, iv, text),
                            if ttl >= 0 then ttl else 0, n)
          && messages == Push(old(messages), c.id,
               [Message(messageId, c.chatId, identity.value, text, now, if failed > 0 then "partial" else "sent")])
          && Carrying(posts, messageId, c.chatId, identity.value, Encrypt(cipher, c.keyB64, iv, text))
          && (r == Sent <==> forall i :: i in rejected ==> i >= n)
          && (r == AllFailed <==> forall i :: 0 <= i < n ==> i in rejected)
          && (r == Sent || r == AllFailed || r == Warning(failed, n))
    {
      posts := [];
      if activeChatId == None { return NoActiveChat, []; }
      var found := FindChat(chats, activeChatId.value);
      if found == None { return NoActiveChat, []; }
      if identity == None { return NoIdentity, []; }
      var chat := found.value;
      var n := |Resolve(servers, chat.serverIds)|;
      if n == 0 { return NoServers, []; }
      var encrypted := Encrypt(cipher, chat.keyB64, iv, text);
      posts := Posts(messageId, chat.chatId, identity.value, encrypted, if ttl >= 0 then ttl else 0, n);
      var failed := |set i | i in rejected && i < n|;
      var msg := Message(messageId, chat.chatId, identity.value, text, now, if failed > 0 then "partial" else "sent");
      PushKeepsDistinct(messages, chat.id, [msg]);
      PostsCarry(messageId, chat.chatId, identity.value, encrypted, if ttl >= 0 then ttl else 0, n);
      RejectedCount(rejected, n);
      messages := messages[chat.id := HeldIn(messages, chat.id) + [msg]];
      r := if failed == n then AllFailed else if failed > 0 then Warning(failed, n) else Sent;
    }

    // pollChat, given what each resolved server returned ([] when unreachable).
    method PollChat(chat: Chat, results: seq<seq<Fragment>>, cipher: Cipher)
      requires Valid() && |results| == |Resolve(servers, chat.serverIds)|
      modifies this`messages, this`unread, this`log, chat`lastSince
      ensures Valid()
      ensures results == [] ==>
        messages == old(messages) && chat.lastSince == old(chat.lastSince) && unread == old(unread) && log == old(log)
      ensures results != [] ==>
        var added := Added(chat.chatId, results, Ids(HeldIn(old(messages), chat.id)), Opener(cipher, chat.keyB64));
        && messages == Push(old(messages), chat.id, added)
        && chat.lastSince == NewCursor(old(chat.lastSince), added)
        && unread == (if activeChatId == Some(chat.id) then old(unread) else Raise(old(unread), chat.id, |added|))
        && log == old(log) + [Polled(chat.id, |added|)]
    {
      hide *;
      ValidMeaning();
      var n := |Resolve(servers, chat.serverIds)|;
      if n == 0 { return; }
      var keys, byMessage := GroupFragments(results);
      var existing, open := Ids(HeldIn(messages, chat.id)), Opener(cipher, chat.keyB64);
      var isActive := activeChatId == Some(chat.id);
      ghost var added := Added(chat.chatId, results, existing, open);
      var newCount, maxTimestamp := AddMessages(chat, keys, byMessage, results, existing, open, isActive);
      AddedExactly(chat.chatId, results, existing, open);
      PushKeepsDistinct(old(messages), chat.id, added);
      CursorIsMax(chat.lastSince, added);
      if maxTimestamp > chat.lastSince { chat.lastSince := maxTimestamp; }
      RaiseZero(unread, chat.id);
      if !isActive && newCount > 0 { unread := Raise(unread, chat.id, newCount); }
      CountedAfter(old(unread), log, Polled(chat.id, |added|), unread);
      log := log + [Polled(chat.id, |added|)];
      ValidMeaning();
    }

    lemma ValidMeaning()
      ensures Valid() <==>
        DistinctLists(messages) && Counted(unread, log) && activeChatId == ActiveAfter(log) && UniqueServerIds(servers)
    {}

    // The second loop of pollChat: push each new message, count it when the
    // chat is not open, and track the greatest stamp.
    method AddMessages(chat: Chat, keys: seq<string>, byMessage: map<string, Info>, results: seq<seq<Fragment>>,
                       existing: set<string>, open: string -> Option<string>, isActive: bool)
      returns (newCount: nat, maxTimestamp: int)
      requires results != [] && Grouped(keys, byMessage, results)
      modifies this`messages
      ensures var added := Added(chat.chatId, results, existing, open);
        && messages == Push(old(messages), chat.id, added)
        && newCount == (if isActive then 0 else |added|)
        && maxTimestamp == NewCursor(chat.lastSince, added)
    {
      hide *;
      ghost var added: seq<Message> := [];
      newCount, maxTimestamp := 0, chat.lastSince;
      var k := 0;
      LoopStart(chat.chatId, results, existing, open, keys, byMessage, messages, chat.id, chat.lastSince);
      while k < |keys|
        invariant 0 <= k <= |keys|
        invariant added == AddedFor(chat.chatId, results, existing, open, keys[..k])
        invariant messages == Push(old(messages), chat.id, added)
        invariant maxTimestamp == NewCursor(chat.lastSince, added)
        invariant newCount == if isActive then 0 else |added|
      {
        GroupedAt(keys, byMessage, results, k);
        var msg := NewMessage(keys[k], byMessage[keys[k]], results, existing, chat.chatId, open);
        AddedStep(chat.chatId, results, existing, open, keys, k);
        if msg != None {
          PushStep(old(messages), chat.id, added, msg.value);
          CursorStep(chat.lastSince, added, msg.value);
          messages := messages[chat.id := HeldIn(messages, chat.id) + [msg.value]];
          added := added + [msg.value];
          if !isActive { newCount := newCount + 1; }
          if msg.value.timestamp > maxTimestamp { maxTimestamp := msg.value.timestamp; }
        }
        k := k + 1;
      }
      LoopEnd(chat.chatId, results, existing, open, keys, byMessage);
      assert keys[..k] == keys;
    }
  }

  // The loop's parts, one step at a time.
  lemma LoopStart(chatId: string, results: seq<seq<Fragment>>, existing: set<string>, open: string -> Option<string>,
                  keys: seq<string>, table: map<string, Info>, messages: map<string, seq<Message>>,
                  c: string, since: int)
    requires results != []
    ensures AddedFor(chatId, results, existing, open, keys[..0]) == []
    ensures Push(messages, c, []) == messages && NewCursor(since, []) == since
  {}

  lemma LoopEnd(chatId: string, results: seq<seq<Fragment>>, existing: set<string>, open: string -> Option<string>,
                keys: seq<string>, table: map<string, Info>)
    requires results != [] && Grouped(keys, table, results)
    ensures AddedFor(chatId, results, existing, open, keys) == Added(chatId, results, existing, open)
  {}

  lemma GroupedAt(keys: seq<string>, table: map<string, Info>, results: seq<seq<Fragment>>, k: nat)
    requires Grouped(keys, table, results) && k < |keys|
    ensures keys[k] in table && Has(Flatten(results), keys[k]) && Entry(table[keys[k]], results, keys[k])
  {}

  lemma AddedStep(chatId: string, results: seq<seq<Fragment>>, existing: set<string>, open: string -> Option<string>,
                  keys: seq<string>, k: nat)
    requires results != [] && k < |keys|
    ensures AddedFor(chatId, results, existing, open, keys[..k + 1]) ==
      AddedFor(chatId, results, existing, open, keys[..k]) +
        if keys[k] !in existing && Complete(results, keys[k]) then [Assembled(chatId, results, keys[k], open)] else []
  {
    assert keys[..k + 1][..k] == keys[..k];
  }

  lemma PushStep(messages: map<string, seq<Message>>, c: string, added: seq<Message>, x: Message)
    ensures Push(messages, c, added + [x]) == Push(messages, c, added)[c := HeldIn(Push(messages, c, added), c) + [x]]
  {
    assert HeldIn(messages, c) + (added + [x]) == HeldIn(messages, c) + added + [x];
    if added == [] { assert added + [x] == [x]; }
  }

  lemma CursorStep(since: int, added: seq<Message>, x: Message)
    ensures NewCursor(since, added + [x]) ==
      if x.timestamp > NewCursor(since, added) then x.timestamp else NewCursor(since, added)
  {
    assert (added + [x])[..|added|] == added;
  }

  lemma RaiseZero(unread: map<string, nat>, c: string)
    ensures Raise(unread, c, 0) == unread
  {}
}
