// What the steps of the protocol do to the rows of a chat, and runs taken apart.

module ChatRows {
  import opened Options
  import opened Numerals
  import opened Fragments
  import opened Wire
  import opened Polling
  import opened Store
  import opened Handlers
  import opened Protocol
  import opened Delivery

  // ---- Rows of a message ----

  // A server holds at most one row of a chat's message.
  lemma OneRow(su: Setup, w: World, chat: string, i: nat, r: Fragment, r': Fragment)
    requires Agreed(su) && Inv(su, w) && chat in su.servers
    requires OnServer(su, w, chat, i, r) && OnServer(su, w, chat, i, r') && r.messageId == r'.messageId
    ensures r == r'
  {
    var s := ServersOf(su, chat)[i];
    assert TableOk(su, w.sent, s, Rows(w, s));
    RowIsPiece(su, w.sent, chat, i, r);
    RowIsPiece(su, w.sent, chat, i, r');
    UniqueRow(Rows(w, s), r, r');
  }

  lemma SamePrefix(a: string, d: string, a': string, d': string)
    requires a + "-" + d == a' + "-" + d' && '-' !in d && '-' !in d'
    ensures a == a'
  {
    var s := a + "-" + d;
    assert s[|a|] == '-' && s[|a'|] == (a' + "-" + d')[|a'|] == '-';
    assert a == s[..|a|] && a' == s[..|a'|];
  }

  // A server has the piece's id exactly when it holds a row of the message.
  lemma IdIsRow(su: Setup, w: World, m: string, i: nat)
    requires Agreed(su) && Inv(su, w) && m in w.sent && i < |ServersOf(su, w.sent[m].chat)|
    ensures var chat := w.sent[m].chat;
      HasId(Rows(w, ServersOf(su, chat)[i]), Piece(su, w.sent[m], m, i).id) <==> Stored(su, w, chat, i, m)
  {
    var chat := w.sent[m].chat;
    var rows, id := Rows(w, ServersOf(su, chat)[i]), Piece(su, w.sent[m], m, i).id;
    assert TableOk(su, w.sent, ServersOf(su, chat)[i], rows);
    assert SendingOk(su, m, w.sent[m]);
    if HasId(rows, id) {
      var r :| r in rows && r.id == id;
      IdOfPiece(su, w, m, i, r);
      assert OnServer(su, w, chat, i, r);
    }
    hide Piece, SendingOk;
    if Stored(su, w, chat, i, m) {
      var r :| OnServer(su, w, chat, i, r) && r.messageId == m;
      RowIsPiece(su, w.sent, chat, i, r);
      assert r in rows && r.id == id by { PieceId(su, w.sent[m], m, i, r.timestamp); }
    }
  }

  lemma PieceId(su: Setup, p: Sending, m: string, i: nat, t: int)
    requires i < |ServersOf(su, p.chat)|
    ensures Piece(su, p, m, i).(timestamp := t).id == Piece(su, p, m, i).id
  {}

  // A row with the id of a message's piece is a row of that message.
  lemma IdOfPiece(su: Setup, w: World, m: string, i: nat, r: Fragment)
    requires Inv(su, w) && m in w.sent && i < |ServersOf(su, w.sent[m].chat)|
    requires r in Rows(w, ServersOf(su, w.sent[m].chat)[i]) && r.id == Piece(su, w.sent[m], m, i).id
    ensures r.messageId == m && r.chatId == w.sent[m].chat
  {
    var s := ServersOf(su, w.sent[m].chat)[i];
    assert TableOk(su, w.sent, s, Rows(w, s));
    assert RowOk(su, w.sent, s, r);
    hide Inv, TableOk;
    var k :| 0 <= k < |ServersOf(su, w.sent[r.messageId].chat)| &&
             r == Piece(su, w.sent[r.messageId], r.messageId, k).(timestamp := r.timestamp);
    SamePrefix(m, Decimal(i), r.messageId, Decimal(k));
  }

  // ---- Posts ----

  lemma RowsAppended(su: Setup, w: World, chat: string, i: nat, added: seq<Fragment>)
    requires i < |ServersOf(su, chat)| && Distinct(ServersOf(su, chat)) && forall r :: r in added ==> r.chatId == chat
    ensures var s := ServersOf(su, chat)[i];
      var w' := SetRows(w, s, Rows(w, s) + added);
      forall j, r :: OnServer(su, w', chat, j, r) <==> OnServer(su, w, chat, j, r) || (j == i && r in added)
  {}

  ghost predicate OneRowMore(su: Setup, w: World, w': World, chat: string, i: int, r0: Fragment) {
    forall j, r :: OnServer(su, w', chat, j, r) <==> OnServer(su, w, chat, j, r) || (j == i && r == r0)
  }

  ghost predicate SameRows(su: Setup, w: World, w': World, chat: string) {
    forall j, r :: OnServer(su, w', chat, j, r) <==> OnServer(su, w, chat, j, r)
  }

  // The step posts a piece of the chat that its server accepts and does not have.
  ghost predicate AddsRow(su: Setup, w: World, step: Step, chat: string)
    requires Enabled(su, w, step)
  {
    step.Post? && w.sent[step.m].chat == chat && !Stored(su, w, chat, step.i, step.m) &&
    var f := Piece(su, w.sent[step.m], step.m, step.i);
    |PostBody(f)| <= su.maxBytes && FirstMissing(f) == None
  }

  function NewRow(su: Setup, w: World, step: Step): Fragment
    requires step.Post? && step.m in w.sent && step.i < |ServersOf(su, w.sent[step.m].chat)|
  {
    Piece(su, w.sent[step.m], step.m, step.i).(timestamp := step.now)
  }

  lemma PostEffect(su: Setup, w: World, step: Step)
    requires Agreed(su) && Inv(su, w) && Enabled(su, w, step) && step.Post?
    ensures forall v :: v in w.views ==> ViewShape(su, w.views[v])
    ensures var chat := w.sent[step.m].chat;
      var s := ServersOf(su, chat)[step.i];
      Do(su, w, step) == SetRows(w, s, Rows(w, s) + if AddsRow(su, w, step, chat) then [NewRow(su, w, step)] else [])
  {
    assert SendingOk(su, step.m, w.sent[step.m]);
    hide Agreed, Inv, PostBody, FirstMissing, HasId, Rows, Stored, SendingOk;
    PostAdds(su, w, step);
    IdIsRow(su, w, step.m, step.i);
    var s := ServersOf(su, w.sent[step.m].chat)[step.i];
    assert Rows(w, s) + [] == Rows(w, s);
  }

  lemma OtherRowsAppended(su: Setup, w: World, chat: string, s: string, added: seq<Fragment>)
    requires forall r :: r in added ==> r.chatId != chat
    ensures SameRows(su, w, SetRows(w, s, Rows(w, s) + added), chat)
  {}

  lemma OneAppended(su: Setup, w: World, chat: string, i: nat, r0: Fragment)
    requires i < |ServersOf(su, chat)| && Distinct(ServersOf(su, chat)) && r0.chatId == chat
    ensures var s := ServersOf(su, chat)[i]; OneRowMore(su, w, SetRows(w, s, Rows(w, s) + [r0]), chat, i, r0)
  {
    RowsAppended(su, w, chat, i, [r0]);
    hide OnServer;
  }

  // What a post does to the rows of a chat.
  lemma PostRows(su: Setup, w: World, step: Step, chat: string)
    requires Agreed(su) && Inv(su, w) && Enabled(su, w, step) && step.Post? && chat in su.servers
    ensures forall v :: v in w.views ==> ViewShape(su, w.views[v])
    ensures var w' := Do(su, w, step);
      && w'.sent == w.sent && w'.views == w.views
      && (if AddsRow(su, w, step, chat) then OneRowMore(su, w, w', chat, step.i, NewRow(su, w, step))
        else SameRows(su, w, w', chat))
  {
    var mine := w.sent[step.m].chat;
    assert Distinct(ServersOf(su, chat));
    assert NewRow(su, w, step).chatId == mine;
    assert AddsRow(su, w, step, chat) ==> mine == chat;
    hide Agreed, Inv, Do, AddsRow, NewRow, Stored, Rows, OneRowMore, SameRows, Enabled, ViewShape;
    PostEffect(su, w, step);
    if AddsRow(su, w, step, chat) {
      OneAppended(su, w, chat, step.i, NewRow(su, w, step));
    } else {
      var added := if AddsRow(su, w, step, mine) then [NewRow(su, w, step)] else [];
      assert added != [] ==> mine != chat;
      OtherRowsAppended(su, w, chat, ServersOf(su, mine)[step.i], added);
    }
  }

  // A row of the message on server i was there before the step, or is the piece
  // just posted, which the server did not have.
  lemma NewRowIsPosted(su: Setup, w: World, step: Step, chat: string, m: string, i: nat, r: Fragment)
    requires Agreed(su) && Inv(su, w) && Enabled(su, w, step) && chat in su.servers
    requires OnServer(su, Do(su, w, step), chat, i, r) && r.messageId == m
    ensures OnServer(su, w, chat, i, r) ||
      (step.Post? && step.m == m && step.i == i && r.timestamp == step.now && !Stored(su, w, chat, i, m))
  {
    if step.Post? {
      PostRows(su, w, step, chat);
    } else if step.DeleteRow? || step.PurgeRows? {
      FilterMembers(Rows(w, step.server), if step.DeleteRow? then Not(WithId(Text.CText(step.id)))
        else Not(Expired(step.now)));
    } else {
      hide Posted, Answer, AfterPoll, ViewOk, SendingOk, TableOk;
    }
  }

  // ---- Runs ----

  lemma NoSteps(su: Setup, w: World)
    requires Agreed(su) && Inv(su, w)
    ensures Possible(su, w, []) && After(su, w, []) == w
  {}

  lemma RunFirst(su: Setup, w: World, step: Step, rest: seq<Step>)
    requires Agreed(su) && Inv(su, w) && Enabled(su, w, step)
    requires Inv(su, Do(su, w, step)) && Possible(su, Do(su, w, step), rest)
    ensures Possible(su, w, [step] + rest) && After(su, w, [step] + rest) == After(su, Do(su, w, step), rest)
  {
    hide Do, Enabled, Inv, Agreed;
    var steps := [step] + rest;
    assert steps[0] == step && steps[1..] == rest;
  }

  lemma RunHead(su: Setup, w: World, steps: seq<Step>)
    requires Agreed(su) && Inv(su, w) && Possible(su, w, steps) && steps != []
    ensures Enabled(su, w, steps[0]) && forall v :: v in w.views ==> ViewShape(su, w.views[v])
    ensures var next := Do(su, w, steps[0]);
      Inv(su, next) && Possible(su, next, steps[1..]) && After(su, w, steps) == After(su, next, steps[1..])
  {
    Protocol.StepKeeps(su, w, steps[0]);
    hide Inv, Agreed, Enabled, Do;
  }

  lemma {:induction false} RunThen(su: Setup, w: World, first: seq<Step>, rest: seq<Step>)
    requires Agreed(su) && Inv(su, w) && Possible(su, w, first) && Possible(su, After(su, w, first), rest)
    ensures Possible(su, w, first + rest) && After(su, w, first + rest) == After(su, After(su, w, first), rest)
    decreases |first|
  {
    hide Do, Enabled, Inv, Agreed;
    if first == [] {
      assert first + rest == rest;
    } else {
      RunHead(su, w, first);
      var next := Do(su, w, first[0]);
      RunThen(su, next, first[1..], rest);
      RunFirst(su, w, first[0], first[1..] + rest);
      assert first + rest == [first[0]] + (first[1..] + rest);
    }
  }
}
