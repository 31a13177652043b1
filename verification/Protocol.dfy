// The fragment protocol as a step system: senders, servers, deletes, purges and
// receivers whose fetches see different moments, in any interleaving. Every
// step that touches a server goes through the handler's own functions on the
// texts the client sends.

module Protocol {
  import opened Options
  import opened Numerals
  import opened Fragments
  import opened Base64
  import opened Payload
  import opened Polling
  import opened Store
  import opened Handlers
  import opened Wire
  import opened Json
  import opened Query
  import opened Clients

  // What sender and receivers of a chat agree on: its ordered servers and its key.
  datatype Setup = Setup(servers: map<string, seq<string>>, keys: map<string, string>, cipher: Cipher, maxBytes: nat)

  function ServersOf(su: Setup, chat: string): seq<string> {
    if chat in su.servers then su.servers[chat] else []
  }

  function Key(su: Setup, chat: string): string { if chat in su.keys then su.keys[chat] else "" }

  ghost predicate Agreed(su: Setup) {
    && Lawful(su.cipher)
    && (forall chat :: chat in su.servers ==>
          su.servers[chat] != [] && Distinct(su.servers[chat]) && Bytes(chat) && Printable(chat) && chat != "")
  }

  // A message as it was sent.
  datatype Sending = Sending(chat: string, sender: string, text: string, cipherText: string, ttl: nat)

  // A poll in flight: the cursor it was started with, and what each server returned so far.
  datatype Poll = Poll(since: int, results: seq<Option<seq<Fragment>>>)

  // One client's copy of one chat.
  datatype View = View(chat: string, cursor: int, messages: seq<Message>, poll: Option<Poll>)

  datatype World = World(tables: map<string, seq<Fragment>>, sent: map<string, Sending>, views: map<string, View>)

  const EMPTY_WORLD: World := World(map[], map[], map[])

  datatype Step =
    | Join(view: string, chat: string)
    | StartSend(m: string, chat: string, sender: string, text: string, iv: seq<Byte>, ttl: nat)
    | Post(m: string, i: nat, now: int)
    | FinishSend(view: string, m: string, now: int, status: string)
    | DeleteRow(server: string, id: string)
    | PurgeRows(server: string, now: int)
    | StartPoll(view: string)
    | Fetch(view: string, i: nat)
    | FailFetch(view: string, i: nat)
    | FinishPoll(view: string)
    | Reload(view: string)

  function Rows(w: World, server: string): seq<Fragment> {
    if server in w.tables then w.tables[server] else []
  }

  function Piece(su: Setup, p: Sending, m: string, i: nat): Fragment
    requires i < |ServersOf(su, p.chat)|
  {
    FragmentFor(m, p.chat, p.sender, p.cipherText, p.ttl, |ServersOf(su, p.chat)|, i)
  }

  ghost predicate AllSendable(su: Setup, p: Sending, m: string) {
    forall i :: 0 <= i < |ServersOf(su, p.chat)| ==> Sendable(Piece(su, p, m, i))
  }

  function NewSending(su: Setup, step: Step): Sending
    requires step.StartSend?
  {
    Sending(step.chat, step.sender, step.text, Encrypt(su.cipher, Key(su, step.chat), step.iv, step.text), step.ttl)
  }

  predicate InFlight(w: World, v: string) { v in w.views && w.views[v].poll.Some? }

  predicate AllFetched(p: Poll) { forall i :: 0 <= i < |p.results| ==> p.results[i].Some? }

  ghost predicate Enabled(su: Setup, w: World, step: Step) {
    match step
    case Join(v, chat) => v !in w.views && chat in su.servers
    case StartSend(m, chat, _, _, iv, _) =>
      m !in w.sent && chat in su.servers && |iv| == IV_LEN && AllSendable(su, NewSending(su, step), m)
    case Post(m, i, now) =>
      m in w.sent && i < |ServersOf(su, w.sent[m].chat)| && 0 <= now < INT64_BOUND
    case FinishSend(v, m, _, status) =>
      v in w.views && m in w.sent && w.sent[m].chat == w.views[v].chat && status != "received"
    case DeleteRow(_, _) => true
    case PurgeRows(_, _) => true
    case StartPoll(v) => v in w.views && w.views[v].poll == None
    case Fetch(v, i) => InFlight(w, v) && i < |w.views[v].poll.value.results| &&
      w.views[v].poll.value.results[i] == None
    case FailFetch(v, i) => InFlight(w, v) && i < |w.views[v].poll.value.results| &&
      w.views[v].poll.value.results[i] == None
    case FinishPoll(v) => InFlight(w, v) && AllFetched(w.views[v].poll.value) && w.views[v].poll.value.results != []
    case Reload(v) => v in w.views
  }

  // What server i answers to the view's query; a refused query counts as empty.
  function Answer(su: Setup, w: World, view: View, i: nat): seq<Fragment>
    requires view.poll.Some? && Bytes(view.chat) && i < |ServersOf(su, view.chat)|
  {
    var reply := Fetched(Rows(w, ServersOf(su, view.chat)[i]), FragmentsQuery(view.chat, view.poll.value.since));
    if reply == None then [] else reply.value
  }

  function Results(p: Poll): seq<seq<Fragment>>
    requires AllFetched(p)
  {
    seq(|p.results|, i requires 0 <= i < |p.results| => p.results[i].value)
  }

  function Received(su: Setup, view: View): seq<Message>
    requires view.poll.Some? && AllFetched(view.poll.value) && view.poll.value.results != []
  {
    Added(view.chat, Results(view.poll.value), Ids(view.messages), Opener(su.cipher, Key(su, view.chat)))
  }

  // The view after its poll: exactly what pollChat does to the list and the cursor.
  function AfterPoll(su: Setup, view: View): View
    requires view.poll.Some? && AllFetched(view.poll.value) && view.poll.value.results != []
  {
    var added := Received(su, view);
    View(view.chat, NewCursor(view.cursor, added), view.messages + added, None)
  }

  function WithResult(view: View, i: nat, frags: seq<Fragment>): View
    requires view.poll.Some? && i < |view.poll.value.results|
  {
    var p := view.poll.value;
    view.(poll := Some(p.(results := p.results[i := Some(frags)])))
  }

  function SetView(w: World, v: string, view: View): World { w.(views := w.views[v := view]) }

  function SetRows(w: World, server: string, rows: seq<Fragment>): World { w.(tables := w.tables[server := rows]) }

  function Do(su: Setup, w: World, step: Step): World
    requires Agreed(su) && Enabled(su, w, step)
    requires forall v :: v in w.views ==> ViewShape(su, w.views[v])
  {
    match step
    case Join(v, chat) => SetView(w, v, View(chat, 0, [], None))
    case StartSend(m, _, _, _, _, _) => w.(sent := w.sent[m := NewSending(su, step)])
    case Post(m, i, now) =>
      var s := ServersOf(su, w.sent[m].chat)[i];
      SetRows(w, s, Posted(Rows(w, s), PostBody(Piece(su, w.sent[m], m, i)), now, su.maxBytes))
    case FinishSend(v, m, now, status) =>
      var p := w.sent[m];
      SetView(w, v, w.views[v].(messages := w.views[v].messages + [Message(m, p.chat, p.sender, p.text, now, status)]))
    case DeleteRow(s, id) => SetRows(w, s, Delete(Rows(w, s), id))
    case PurgeRows(s, now) => SetRows(w, s, Purge(Rows(w, s), now))
    case StartPoll(v) =>
      var view := w.views[v];
      SetView(w, v, view.(poll := Some(Poll(view.cursor, seq(|ServersOf(su, view.chat)|, _ => None)))))
    case Fetch(v, i) =>
      assert ViewShape(su, w.views[v]);
      SetView(w, v, WithResult(w.views[v], i, Answer(su, w, w.views[v], i)))
    case FailFetch(v, i) => SetView(w, v, WithResult(w.views[v], i, []))
    case FinishPoll(v) => SetView(w, v, AfterPoll(su, w.views[v]))
    case Reload(v) => SetView(w, v, w.views[v].(messages := [], poll := None))
  }

  ghost predicate ViewShape(su: Setup, view: View) {
    view.chat in su.servers && (view.poll.Some? ==> |view.poll.value.results| == |ServersOf(su, view.chat)|)
  }

  // ---- The invariant ----

  // The text a receiver is shown for a text sent.
  function Shown(su: Setup, text: string): string { su.cipher.decodeText(su.cipher.encodeText(text)) }

  // The row is the piece of an actual message that belongs on this server.
  ghost predicate RowOk(su: Setup, sent: map<string, Sending>, server: string, r: Fragment) {
    && r.messageId in sent
    && 0 <= r.timestamp < INT64_BOUND
    && exists i ::
         && 0 <= i < |ServersOf(su, sent[r.messageId].chat)|
         && ServersOf(su, sent[r.messageId].chat)[i] == server
         && r == Piece(su, sent[r.messageId], r.messageId, i).(timestamp := r.timestamp)
  }

  ghost predicate RowsOk(su: Setup, sent: map<string, Sending>, server: string, rows: seq<Fragment>) {
    forall r :: r in rows ==> RowOk(su, sent, server, r)
  }

  ghost predicate TableOk(su: Setup, sent: map<string, Sending>, server: string, rows: seq<Fragment>) {
    RowsOk(su, sent, server, rows) && UniqueIds(rows)
  }

  ghost predicate SendingOk(su: Setup, m: string, p: Sending) {
    && p.chat in su.servers
    && AllSendable(su, p, m)
    && Decrypt(su.cipher, Key(su, p.chat), p.cipherText) == Some(Shown(su, p.text))
  }

  // The message has the id, sender and text of an actual send in this chat.
  ghost predicate MessageOk(su: Setup, sent: map<string, Sending>, chat: string, x: Message) {
    && x.id in sent
    && sent[x.id].chat == chat == x.chatId
    && x.senderHash == sent[x.id].sender
    && x.text == (if x.status == "received" then Shown(su, sent[x.id].text) else sent[x.id].text)
  }

  ghost predicate ResultOk(su: Setup, sent: map<string, Sending>, view: View, i: nat, frags: seq<Fragment>)
    requires i < |ServersOf(su, view.chat)|
  {
    RowsOk(su, sent, ServersOf(su, view.chat)[i], frags) && forall f :: f in frags ==> f.chatId == view.chat
  }

  ghost predicate PollOk(su: Setup, sent: map<string, Sending>, view: View)
    requires view.poll.Some? && ViewShape(su, view)
  {
    var p := view.poll.value;
    && p.since == view.cursor
    && (forall i :: 0 <= i < |p.results| && p.results[i].Some? ==> ResultOk(su, sent, view, i, p.results[i].value))
  }

  ghost predicate ViewOk(su: Setup, sent: map<string, Sending>, view: View) {
    && ViewShape(su, view)
    && 0 <= view.cursor < INT64_BOUND
    && (forall x :: x in view.messages ==> MessageOk(su, sent, view.chat, x))
    && (view.poll.Some? ==> PollOk(su, sent, view))
  }

  ghost predicate Inv(su: Setup, w: World) {
    && (forall m :: m in w.sent ==> SendingOk(su, m, w.sent[m]))
    && (forall s :: s in w.tables ==> TableOk(su, w.sent, s, w.tables[s]))
    && (forall v :: v in w.views ==> ViewOk(su, w.sent, w.views[v]))
  }

  lemma ShapesOk(su: Setup, w: World)
    requires Inv(su, w)
    ensures forall v :: v in w.views ==> ViewShape(su, w.views[v])
  {
    forall v | v in w.views ensures ViewShape(su, w.views[v]) { assert ViewOk(su, w.sent, w.views[v]); }
  }

  // ---- Each step keeps it ----

  lemma SentGrows(su: Setup, sent: map<string, Sending>, m: string, p: Sending)
    requires m !in sent
    ensures forall s, r :: RowOk(su, sent, s, r) ==> RowOk(su, sent[m := p], s, r)
    ensures forall view :: ViewOk(su, sent, view) ==> ViewOk(su, sent[m := p], view)
  {
    forall s, r | RowOk(su, sent, s, r) ensures RowOk(su, sent[m := p], s, r) {}
    forall view | ViewOk(su, sent, view) ensures ViewOk(su, sent[m := p], view) {
      if view.poll.Some? {
        forall i | 0 <= i < |view.poll.value.results| && view.poll.value.results[i].Some?
          ensures ResultOk(su, sent[m := p], view, i, view.poll.value.results[i].value)
        {
          assert ResultOk(su, sent, view, i, view.poll.value.results[i].value);
        }
      }
    }
  }

  lemma StartSendKeeps(su: Setup, w: World, step: Step)
    requires Agreed(su) && Inv(su, w) && step.StartSend? && Enabled(su, w, step)
    ensures Inv(su, Do(su, w, step))
  {
    var p := NewSending(su, step);
    SentGrows(su, w.sent, step.m, p);
    DecryptEncrypt(su.cipher, Key(su, step.chat), step.iv, step.text);
    assert SendingOk(su, step.m, p);
  }

  // A posted piece reaches its server's table as it is, or not at all.
  lemma PostAdds(su: Setup, w: World, step: Step)
    requires Agreed(su) && Inv(su, w) && step.Post? && Enabled(su, w, step)
    ensures var s, f := ServersOf(su, w.sent[step.m].chat)[step.i], Piece(su, w.sent[step.m], step.m, step.i);
      Do(su, w, step) == SetRows(w, s,
        if |PostBody(f)| > su.maxBytes || FirstMissing(f).Some? || HasId(Rows(w, s), f.id) then Rows(w, s)
        else Rows(w, s) + [f.(timestamp := step.now)])
  {
    var s, f := ServersOf(su, w.sent[step.m].chat)[step.i], Piece(su, w.sent[step.m], step.m, step.i);
    assert SendingOk(su, step.m, w.sent[step.m]);
    PostArrives(Rows(w, s), f, step.now, su.maxBytes);
  }

  // Adding one good row with a fresh id keeps a table good.
  lemma AppendOk(su: Setup, sent: map<string, Sending>, server: string, rows: seq<Fragment>, r: Fragment)
    requires TableOk(su, sent, server, rows) && RowOk(su, sent, server, r) && !HasId(rows, r.id)
    ensures TableOk(su, sent, server, rows + [r])
  {
    hide RowOk;
    assert forall k :: 0 <= k < |rows| ==> rows[k] in rows && rows[k].id != r.id;
  }

  // Replacing one table by a good one keeps the invariant.
  lemma SetRowsKeeps(su: Setup, w: World, server: string, rows: seq<Fragment>)
    requires Inv(su, w) && TableOk(su, w.sent, server, rows)
    ensures Inv(su, SetRows(w, server, rows))
  {
    hide TableOk, SendingOk, ViewOk;
  }

  lemma PostKeeps(su: Setup, w: World, step: Step)
    requires Agreed(su) && Inv(su, w) && step.Post? && Enabled(su, w, step)
    ensures Inv(su, Do(su, w, step))
  {
    var s, f := ServersOf(su, w.sent[step.m].chat)[step.i], Piece(su, w.sent[step.m], step.m, step.i);
    assert w.sent[step.m].chat in su.servers by { assert SendingOk(su, step.m, w.sent[step.m]); }
    PostAdds(su, w, step);
    var r := f.(timestamp := step.now);
    assert RowOk(su, w.sent, s, r);
    assert TableOk(su, w.sent, s, Rows(w, s)) by { hide RowOk; }
    hide *;
    if !HasId(Rows(w, s), r.id) {
      AppendOk(su, w.sent, s, Rows(w, s), r);
      SetRowsKeeps(su, w, s, Rows(w, s) + [r]);
    }
    SetRowsKeeps(su, w, s, Rows(w, s));
  }

  lemma RemoveKeeps(su: Setup, w: World, step: Step)
    requires Agreed(su) && Inv(su, w) && (step.DeleteRow? || step.PurgeRows?)
    ensures Inv(su, Do(su, w, step))
  {
    var rows := Rows(w, step.server);
    assert TableOk(su, w.sent, step.server, rows);
    var kept := if step.DeleteRow? then Not(WithId(Text.CText(step.id))) else Not(Expired(step.now));
    FilterMembers(rows, kept);
    FilterUnique(rows, kept);
    assert TableOk(su, w.sent, step.server, Filter(rows, kept));
  }

  lemma AnswerMeaning(su: Setup, w: World, view: View, i: nat)
    requires Agreed(su) && ViewOk(su, w.sent, view) && view.poll.Some? && i < |ServersOf(su, view.chat)|
    ensures Bytes(view.chat)
    ensures forall f :: f in Answer(su, w, view, i) <==>
      f in Rows(w, ServersOf(su, view.chat)[i]) && f.chatId == view.chat && f.timestamp > view.poll.value.since
    ensures SortedByTime(Answer(su, w, view, i))
  {
    var rows := Rows(w, ServersOf(su, view.chat)[i]);
    FetchReturns(rows, view.chat, view.poll.value.since);
    SelectMeaning(rows, ChatSince(view.chat, view.poll.value.since));
  }

  // Replacing one view by a good one keeps the invariant.
  lemma SetViewKeeps(su: Setup, w: World, v: string, view: View)
    requires Inv(su, w) && ViewOk(su, w.sent, view)
    ensures Inv(su, SetView(w, v, view))
  {
    hide TableOk, SendingOk, ViewOk;
  }

  // One more good result.
  lemma WithResultOk(su: Setup, sent: map<string, Sending>, view: View, i: nat, frags: seq<Fragment>)
    requires ViewOk(su, sent, view) && view.poll.Some? && i < |ServersOf(su, view.chat)|
    requires ResultOk(su, sent, view, i, frags)
    ensures ViewOk(su, sent, WithResult(view, i, frags))
  {
    var after := WithResult(view, i, frags);
    hide MessageOk, RowsOk, ServersOf;
    forall k | 0 <= k < |after.poll.value.results| && after.poll.value.results[k].Some?
      ensures ResultOk(su, sent, after, k, after.poll.value.results[k].value)
    {
      if k != i { assert ResultOk(su, sent, view, k, view.poll.value.results[k].value); }
    }
  }

  lemma FetchKeeps(su: Setup, w: World, step: Step)
    requires Agreed(su) && Inv(su, w) && (step.Fetch? || step.FailFetch?) && Enabled(su, w, step)
    ensures Inv(su, Do(su, w, step))
  {
    var view := w.views[step.view];
    assert ViewOk(su, w.sent, view);
    var s := ServersOf(su, view.chat)[step.i];
    assert RowsOk(su, w.sent, s, Rows(w, s));
    AnswerMeaning(su, w, view, step.i);
    var frags := if step.Fetch? then Answer(su, w, view, step.i) else [];
    hide Inv, Agreed, ViewOk, RowOk, Answer, Rows, SortedByTime;
    assert ResultOk(su, w.sent, view, step.i, frags);
    WithResultOk(su, w.sent, view, step.i, frags);
    SetViewKeeps(su, w, step.view, WithResult(view, step.i, frags));
  }

  // ---- Reassembly ----

  lemma {:induction false} LastIsMember(frags: seq<Fragment>, m: string)
    requires Has(frags, m)
    ensures Last(frags, m) in frags && Last(frags, m).messageId == m
  {
    var n := |frags| - 1;
    if frags[n].messageId == m {
    } else {
      HasFront(frags, m);
      LastIsMember(frags[..n], m);
    }
  }

  // A row of message m on the chat's server i is piece i: no position is stored,
  // and none is needed, because the chat's servers are distinct.
  lemma RowIsPiece(su: Setup, sent: map<string, Sending>, chat: string, i: nat, r: Fragment)
    requires Agreed(su) && chat in su.servers && i < |ServersOf(su, chat)|
    requires RowOk(su, sent, ServersOf(su, chat)[i], r) && r.chatId == chat
    ensures sent[r.messageId].chat == chat
    ensures r == Piece(su, sent[r.messageId], r.messageId, i).(timestamp := r.timestamp)
  {
    var p := sent[r.messageId];
    var k :| 0 <= k < |ServersOf(su, p.chat)| && ServersOf(su, p.chat)[k] == ServersOf(su, chat)[i] &&
             r == Piece(su, p, r.messageId, k).(timestamp := r.timestamp);
    assert p.chat == chat;
    assert Distinct(ServersOf(su, chat));
    assert k == i;
  }

  // What a server returned of a message is the piece that belongs there.
  lemma ReturnedPiece(su: Setup, sent: map<string, Sending>, view: View, i: nat, frags: seq<Fragment>, m: string)
    requires Agreed(su) && ViewShape(su, view) && i < |ServersOf(su, view.chat)|
    requires ResultOk(su, sent, view, i, frags) && Has(frags, m)
    ensures m in sent && sent[m].chat == view.chat && 0 <= First(frags, m).timestamp < INT64_BOUND
    ensures First(frags, m).senderHash == sent[m].sender
    ensures |SplitPayload(sent[m].cipherText, |ServersOf(su, view.chat)|)| == |ServersOf(su, view.chat)|
    ensures Last(frags, m).payload == SplitPayload(sent[m].cipherText, |ServersOf(su, view.chat)|)[i]
  {
    FirstIsMember(frags, m);
    LastIsMember(frags, m);
    hide First, Last, Has, Agreed;
    RowIsPiece(su, sent, view.chat, i, First(frags, m));
    RowIsPiece(su, sent, view.chat, i, Last(frags, m));
  }

  // A complete message is assembled to exactly what was sent.
  lemma AssembledOk(su: Setup, sent: map<string, Sending>, view: View, results: seq<seq<Fragment>>, m: string)
    requires Agreed(su) && ViewShape(su, view) && |results| == |ServersOf(su, view.chat)|
    requires forall p :: p in sent ==> SendingOk(su, p, sent[p])
    requires forall i :: 0 <= i < |results| ==> ResultOk(su, sent, view, i, results[i])
    requires results != [] && Complete(results, m)
    ensures MessageOk(su, sent, view.chat, Assembled(view.chat, results, m, Opener(su.cipher, Key(su, view.chat))))
    ensures 0 <= First(results[0], m).timestamp < INT64_BOUND
  {
    var n := |results|;
    hide Agreed, ResultOk, Has, First, Last, SplitPayload, JoinPayload, Decrypt, AllSendable, ServersOf;
    ReturnedPiece(su, sent, view, 0, results[0], m);
    var p := sent[m];
    forall i | 0 <= i < n ensures Pieces(results, m)[i] == SplitPayload(p.cipherText, n)[i] {
      ReturnedPiece(su, sent, view, i, results[i], m);
    }
    assert Pieces(results, m) == SplitPayload(p.cipherText, n);
    JoinSplit(p.cipherText, n);
    assert SendingOk(su, m, p);
  }

  lemma ReceivedOk(su: Setup, w: World, view: View, x: Message)
    requires Agreed(su) && Inv(su, w) && ViewOk(su, w.sent, view)
    requires view.poll.Some? && AllFetched(view.poll.value) && view.poll.value.results != [] && x in Received(su, view)
    ensures MessageOk(su, w.sent, view.chat, x) && 0 <= x.timestamp < INT64_BOUND
  {
    var results, open := Results(view.poll.value), Opener(su.cipher, Key(su, view.chat));
    hide SendingOk, TableOk, MessageOk, Added, Agreed;
    AddedExactly(view.chat, results, Ids(view.messages), open);
    forall i | 0 <= i < |results| ensures ResultOk(su, w.sent, view, i, results[i]) {}
    AssembledOk(su, w.sent, view, results, x.id);
  }

  lemma AfterPollOk(su: Setup, w: World, view: View)
    requires Agreed(su) && Inv(su, w) && ViewOk(su, w.sent, view)
    requires view.poll.Some? && AllFetched(view.poll.value) && view.poll.value.results != []
    ensures ViewOk(su, w.sent, AfterPoll(su, view))
  {
    hide Inv, Agreed, MessageOk, Received, NewCursor;
    var added, after := Received(su, view), AfterPoll(su, view);
    forall x | x in added ensures MessageOk(su, w.sent, view.chat, x) && 0 <= x.timestamp < INT64_BOUND {
      ReceivedOk(su, w, view, x);
    }
    CursorIsMax(view.cursor, added);
    assert forall x :: x in after.messages ==> x in view.messages || x in added;
  }

  lemma FinishPollKeeps(su: Setup, w: World, step: Step)
    requires Agreed(su) && Inv(su, w) && step.FinishPoll? && Enabled(su, w, step)
    ensures Inv(su, Do(su, w, step))
  {
    var view := w.views[step.view];
    assert ViewOk(su, w.sent, view);
    hide ViewOk, SendingOk, TableOk, AfterPoll;
    AfterPollOk(su, w, view);
    SetViewKeeps(su, w, step.view, AfterPoll(su, view));
  }

  // The sender's own copy joins the list; the poll in flight stays.
  lemma CopyKeeps(su: Setup, sent: map<string, Sending>, view: View, x: Message)
    requires ViewOk(su, sent, view) && MessageOk(su, sent, view.chat, x)
    ensures ViewOk(su, sent, view.(messages := view.messages + [x]))
  {
    var after := view.(messages := view.messages + [x]);
    hide MessageOk, RowsOk, ServersOf;
    if view.poll.Some? {
      forall i | 0 <= i < |view.poll.value.results| && view.poll.value.results[i].Some?
        ensures ResultOk(su, sent, after, i, view.poll.value.results[i].value)
      {
        assert ResultOk(su, sent, view, i, view.poll.value.results[i].value);
      }
    }
  }

  lemma OtherKeeps(su: Setup, w: World, step: Step)
    requires Agreed(su) && Inv(su, w) && Enabled(su, w, step)
    requires step.Join? || step.FinishSend? || step.StartPoll? || step.Reload?
    ensures Inv(su, Do(su, w, step))
  {
    hide TableOk, SendingOk, ServersOf;
    if step.FinishSend? {
      var view, p := w.views[step.view], w.sent[step.m];
      CopyKeeps(su, w.sent, view, Message(step.m, p.chat, p.sender, p.text, step.now, step.status));
    }
    SetViewKeeps(su, w, step.view, Do(su, w, step).views[step.view]);
  }

  lemma StepKeeps(su: Setup, w: World, step: Step)
    requires Agreed(su) && Inv(su, w) && Enabled(su, w, step)
    ensures Inv(su, Do(su, w, step))
  {
    match step
    case StartSend(_, _, _, _, _, _) => StartSendKeeps(su, w, step);
    case Post(_, _, _) => PostKeeps(su, w, step);
    case DeleteRow(_, _) => RemoveKeeps(su, w, step);
    case PurgeRows(_, _) => RemoveKeeps(su, w, step);
    case Fetch(_, _) => FetchKeeps(su, w, step);
    case FailFetch(_, _) => FetchKeeps(su, w, step);
    case FinishPoll(_) => FinishPollKeeps(su, w, step);
    case _ => OtherKeeps(su, w, step);
  }

  // ---- Runs ----

  ghost predicate Possible(su: Setup, w: World, steps: seq<Step>)
    requires Agreed(su) && Inv(su, w)
    decreases |steps|
  {
    steps == [] || (Enabled(su, w, steps[0]) &&
      (StepKeeps(su, w, steps[0]); Possible(su, Do(su, w, steps[0]), steps[1..])))
  }

  ghost function After(su: Setup, w: World, steps: seq<Step>): (w': World)
    requires Agreed(su) && Inv(su, w) && Possible(su, w, steps)
    ensures Inv(su, w')
    decreases |steps|
  {
    if steps == [] then w else StepKeeps(su, w, steps[0]); After(su, Do(su, w, steps[0]), steps[1..])
  }

  // Whole-run integrity: after any run, every message in any client's list has
  // the id, sender and text of one actual send in that chat.
  lemma Integrity(su: Setup, steps: seq<Step>, v: string, x: Message)
    requires Agreed(su) && Possible(su, EMPTY_WORLD, steps)
    requires v in After(su, EMPTY_WORLD, steps).views && x in After(su, EMPTY_WORLD, steps).views[v].messages
    ensures var w := After(su, EMPTY_WORLD, steps);
      x.id in w.sent && w.sent[x.id].chat == w.views[v].chat && x.senderHash == w.sent[x.id].sender &&
      x.text == if x.status == "received" then Shown(su, w.sent[x.id].text) else w.sent[x.id].text
  {
    var w := After(su, EMPTY_WORLD, steps);
    assert ViewOk(su, w.sent, w.views[v]);
  }
}
