// Messages out of reach: what a poll of every server delivers, exactly, and the
// messages that no later poll can deliver once a stored piece is behind the
// cursor or gone.

module Loss {
  import opened Options
  import opened Numerals
  import opened Fragments
  import opened Payload
  import opened Query
  import opened Wire
  import opened Polling
  import opened Store
  import opened Handlers
  import opened Protocol
  import opened Delivery
  import opened ChatRows

  // ---- Out of reach for good ----

  // The client does not hold the message, and server i gave no piece of it to the poll in flight.
  predicate ViewBarred(su: Setup, view: View, m: string, i: nat) {
    && i < |ServersOf(su, view.chat)| && m !in Held(view)
    && (view.poll.Some? && i < |view.poll.value.results| && view.poll.value.results[i].Some? ==>
          !Has(view.poll.value.results[i].value, m))
  }

  // Server i holds no piece of the message stamped after t.
  ghost predicate NonePast(su: Setup, w: World, chat: string, m: string, i: nat, t: int) {
    forall r :: OnServer(su, w, chat, i, r) && r.messageId == m ==> r.timestamp <= t
  }

  ghost predicate Barred(su: Setup, w: World, v: string, m: string, i: nat) {
    v in w.views && ViewBarred(su, w.views[v], m, i) && NonePast(su, w, w.views[v].chat, m, i, w.views[v].cursor)
  }

  // The step posts piece i of the message to a server that does not hold it,
  // with a stamp past the cursor, or is its own sender's local copy. Posting a
  // piece that its server holds changes nothing.
  ghost predicate Renews(su: Setup, w: World, step: Step, v: string, m: string, i: nat) {
    && v in w.views
    && ((step.FinishSend? && step.view == v && step.m == m) ||
        (step.Post? && step.m == m && step.i == i && !Stored(su, w, w.views[v].chat, i, m) &&
         step.now > w.views[v].cursor))
  }

  ghost predicate RunRenews(su: Setup, w: World, steps: seq<Step>, v: string, m: string, i: nat)
    requires Agreed(su) && Inv(su, w) && Possible(su, w, steps)
    decreases |steps|
  {
    steps != [] && (
      Protocol.StepKeeps(su, w, steps[0]);
      Renews(su, w, steps[0], v, m, i) || RunRenews(su, Do(su, w, steps[0]), steps[1..], v, m, i))
  }

  // Rows of the message on server i that appear without a renewal are behind the cursor.
  lemma RowsStayBehind(su: Setup, w: World, step: Step, v: string, m: string, i: nat)
    requires Agreed(su) && Inv(su, w) && Enabled(su, w, step) && Barred(su, w, v, m, i) && !Renews(su, w, step, v, m, i)
    requires w.views[v].chat in su.servers && forall u :: u in w.views ==> ViewShape(su, w.views[u])
    ensures NonePast(su, Do(su, w, step), w.views[v].chat, m, i, w.views[v].cursor)
  {
    var after, chat := Do(su, w, step), w.views[v].chat;
    hide Do, Inv, Agreed, Enabled, OnServer, ViewShape;
    forall r | OnServer(su, after, chat, i, r) && r.messageId == m ensures r.timestamp <= w.views[v].cursor {
      NewRowIsPosted(su, w, step, chat, m, i, r);
    }
  }

  lemma FetchGivesNone(su: Setup, w: World, view: View, m: string, i: nat)
    requires Agreed(su) && ViewOk(su, w.sent, view) && view.poll.Some? && i < |ServersOf(su, view.chat)|
    requires NonePast(su, w, view.chat, m, i, view.cursor)
    ensures Bytes(view.chat) && !Has(Answer(su, w, view, i), m)
  {
    AnswerMeaning(su, w, view, i);
    hide Answer, Agreed;
    assert forall f :: f in Answer(su, w, view, i) ==> OnServer(su, w, view.chat, i, f) && f.timestamp > view.cursor;
  }

  lemma NothingHas(m: string)
    ensures !Has([], m)
  {}

  lemma OwnStepBarred(su: Setup, w: World, step: Step, v: string, m: string, i: nat)
    requires Agreed(su) && Inv(su, w) && Enabled(su, w, step) && Barred(su, w, v, m, i) && Touches(step, v)
    ensures var after := Do(su, w, step);
      && v in after.views && after.views[v].chat == w.views[v].chat && after.views[v].cursor >= w.views[v].cursor
      && ViewBarred(su, after.views[v], m, i)
  {
    var view := w.views[v];
    assert ViewOk(su, w.sent, view);
    OwnStep(su, w, step, v);
    NothingHas(m);
    hide Do, Inv, Agreed, Answer, AfterPoll, ViewOk, NonePast, Has;
    if step.Fetch? && step.i == i {
      FetchGivesNone(su, w, view, m, i);
    } else if step.FinishPoll? {
      FinishKeepsBarred(su, view, m, i);
    }
  }

  lemma ViewStaysBarred(su: Setup, w: World, step: Step, v: string, m: string, i: nat)
    requires Agreed(su) && Inv(su, w) && Enabled(su, w, step) && Barred(su, w, v, m, i)
    requires !(step.FinishSend? && step.view == v && step.m == m)
    ensures var after := Do(su, w, step);
      && v in after.views && after.views[v].chat == w.views[v].chat && after.views[v].cursor >= w.views[v].cursor
      && ViewBarred(su, after.views[v], m, i)
  {
    if Touches(step, v) { OwnStepBarred(su, w, step, v, m, i); } else { Untouched(su, w, step, v); }
    hide Do, Inv, Agreed, Enabled, NonePast, Has, Held;
  }

  lemma StepKeepsBarred(su: Setup, w: World, step: Step, v: string, m: string, i: nat)
    requires Agreed(su) && Inv(su, w) && Enabled(su, w, step) && Barred(su, w, v, m, i) && !Renews(su, w, step, v, m, i)
    ensures Barred(su, Do(su, w, step), v, m, i)
  {
    assert ViewOk(su, w.sent, w.views[v]);
    RowsStayBehind(su, w, step, v, m, i);
    ViewStaysBarred(su, w, step, v, m, i);
    hide Do, Inv, Agreed, Enabled, ViewBarred, ViewOk, OnServer;
  }

  lemma FinishKeepsBarred(su: Setup, view: View, m: string, i: nat)
    requires view.poll.Some? && AllFetched(view.poll.value) && i < |view.poll.value.results|
    requires m !in Held(view) && !Has(view.poll.value.results[i].value, m)
    ensures m !in Held(AfterPoll(su, view)) && AfterPoll(su, view).cursor >= view.cursor
  {
    var results, added := Results(view.poll.value), Received(su, view);
    AddedExactly(view.chat, results, Held(view), Opener(su.cipher, Key(su, view.chat)));
    CursorIsMax(view.cursor, added);
    assert Held(AfterPoll(su, view)) == Held(view) + Ids(added);
    assert results[i] == view.poll.value.results[i].value;
  }

  // Whatever else happens, the message is never delivered.
  lemma {:induction false} BarredForever(su: Setup, w: World, steps: seq<Step>, v: string, m: string, i: nat)
    requires Agreed(su) && Inv(su, w) && Possible(su, w, steps) && Barred(su, w, v, m, i)
    requires !RunRenews(su, w, steps, v, m, i)
    ensures Barred(su, After(su, w, steps), v, m, i)
    decreases |steps|
  {
    if steps == [] {
    } else {
      Protocol.StepKeeps(su, w, steps[0]);
      StepKeepsBarred(su, w, steps[0], v, m, i);
      hide Barred, Do, Enabled, Inv, Agreed;
      BarredForever(su, Do(su, w, steps[0]), steps[1..], v, m, i);
    }
  }

  // ---- One poll that reaches every server ----

  function Fetches(v: string, k: nat, n: nat): seq<Step>
    decreases n - k
  {
    if k >= n then [] else [Fetch(v, k)] + Fetches(v, k + 1, n)
  }

  function FullPoll(v: string, n: nat): seq<Step> { [StartPoll(v)] + (Fetches(v, 0, n) + [FinishPoll(v)]) }

  // The view with every server's answer in.
  function Polled(su: Setup, w: World, view: View): View
    requires Bytes(view.chat)
  {
    var asked := view.(poll := Some(Poll(view.cursor, [])));
    var n := |ServersOf(su, view.chat)|;
    view.(poll := Some(Poll(view.cursor, seq(n, i requires 0 <= i < n => Some(Answer(su, w, asked, i))))))
  }

  lemma SamePolled(su: Setup, w: World, w': World, view: View, view': View)
    requires w'.tables == w.tables && view'.chat == view.chat && view'.cursor == view.cursor && Bytes(view.chat)
    ensures Polled(su, w', view').poll == Polled(su, w, view).poll
  {
    var asked, asked' := view.(poll := Some(Poll(view.cursor, []))), view'.(poll := Some(Poll(view.cursor, [])));
    forall i | 0 <= i < |ServersOf(su, view.chat)| ensures Answer(su, w', asked', i) == Answer(su, w, asked, i) {}
    hide Answer;
    assert Polled(su, w', view').poll.value.results == Polled(su, w, view).poll.value.results;
  }

  // The world after a poll that saw the tables as they are.
  function PollDone(su: Setup, w: World, v: string): World
    requires v in w.views && Bytes(w.views[v].chat) && ServersOf(su, w.views[v].chat) != []
  {
    SetView(w, v, AfterPoll(su, Polled(su, w, w.views[v])))
  }

  // A poll with the first k answers in.
  ghost predicate PolledTo(su: Setup, w: World, view: View, k: nat) {
    && view.poll.Some? && Bytes(view.chat)
    && var n := |ServersOf(su, view.chat)|;
      && k <= n && |view.poll.value.results| == n && view.poll.value.since == view.cursor
      && (forall i :: k <= i < n ==> view.poll.value.results[i] == None)
      && (forall i :: 0 <= i < k ==> view.poll.value.results[i] == Polled(su, w, view).poll.value.results[i])
  }

  lemma SameDone(su: Setup, w: World, v: string, view': View)
    requires v in w.views && view'.chat == w.views[v].chat && view'.cursor == w.views[v].cursor
    requires view'.messages == w.views[v].messages
    requires Bytes(view'.chat) && ServersOf(su, view'.chat) != []
    ensures PollDone(su, SetView(w, v, view'), v) == PollDone(su, w, v)
    ensures Polled(su, SetView(w, v, view'), view').poll == Polled(su, w, w.views[v]).poll
  {
    var next := SetView(w, v, view');
    SamePolled(su, w, next, w.views[v], view');
    assert Polled(su, next, view') == Polled(su, w, w.views[v]);
    hide AfterPoll, Polled;
    assert next.views[v := AfterPoll(su, Polled(su, w, w.views[v]))] ==
      w.views[v := AfterPoll(su, Polled(su, w, w.views[v]))];
  }

  // One more answer.
  lemma PolledToNext(su: Setup, w: World, v: string, k: nat)
    requires v in w.views && PolledTo(su, w, w.views[v], k) && k < |ServersOf(su, w.views[v].chat)|
    ensures var view' := WithResult(w.views[v], k, Answer(su, w, w.views[v], k));
      var next := SetView(w, v, view');
      PolledTo(su, next, view', k + 1) && PollDone(su, next, v) == PollDone(su, w, v)
  {
    var view := w.views[v];
    var asked := view.(poll := Some(Poll(view.cursor, [])));
    assert Answer(su, w, asked, k) == Answer(su, w, view, k);
    var view' := WithResult(view, k, Answer(su, w, view, k));
    assert Polled(su, w, view).poll.value.results[k] == view'.poll.value.results[k];
    hide Answer;
    SameDone(su, w, v, view');
    hide PollDone, Polled;
  }

  lemma FetchOne(su: Setup, w: World, v: string, k: nat)
    requires Agreed(su) && Inv(su, w) && v in w.views && PolledTo(su, w, w.views[v], k)
    requires k < |ServersOf(su, w.views[v].chat)|
    ensures Enabled(su, w, Fetch(v, k))
    ensures Do(su, w, Fetch(v, k)) == SetView(w, v, WithResult(w.views[v], k, Answer(su, w, w.views[v], k)))
  {
    hide Answer, Polled;
    assert ViewOk(su, w.sent, w.views[v]);
  }

  lemma FinishOne(su: Setup, w: World, v: string)
    requires Agreed(su) && Inv(su, w) && v in w.views && PolledTo(su, w, w.views[v], |ServersOf(su, w.views[v].chat)|)
    ensures Enabled(su, w, FinishPoll(v)) && Do(su, w, FinishPoll(v)) == PollDone(su, w, v)
  {
    var view := w.views[v];
    assert ViewOk(su, w.sent, view);
    assert view.poll.value.results == Polled(su, w, view).poll.value.results;
    assert view == Polled(su, w, view);
    hide Answer;
    assert |ServersOf(su, view.chat)| > 0;
  }

  function PollStep(v: string, k: nat, n: nat): Step { if k == n then FinishPoll(v) else Fetch(v, k) }

  lemma PollAdvances(su: Setup, w: World, v: string, k: nat)
    requires Agreed(su) && Inv(su, w) && v in w.views && PolledTo(su, w, w.views[v], k)
    ensures var n, chat := |ServersOf(su, w.views[v].chat)|, w.views[v].chat;
      && Enabled(su, w, PollStep(v, k, n)) && Bytes(chat) && n > 0
      && (forall u :: u in w.views ==> ViewShape(su, w.views[u]))
      && var next := Do(su, w, PollStep(v, k, n));
         && Inv(su, next) && v in next.views && next.views[v].chat == chat
         && (if k == n then next == PollDone(su, w, v)
             else PolledTo(su, next, next.views[v], k + 1) && PollDone(su, next, v) == PollDone(su, w, v))
  {
    var n := |ServersOf(su, w.views[v].chat)|;
    assert ViewOk(su, w.sent, w.views[v]);
    if k == n {
      FinishOne(su, w, v);
    } else {
      FetchOne(su, w, v, k);
      PolledToNext(su, w, v, k);
    }
    hide Enabled, Do, Inv, Answer, Polled, AfterPoll;
    Protocol.StepKeeps(su, w, PollStep(v, k, n));
  }

  lemma {:induction false} FetchesRun(su: Setup, w: World, v: string, k: nat)
    requires Agreed(su) && Inv(su, w) && v in w.views && PolledTo(su, w, w.views[v], k) &&
      k <= |ServersOf(su, w.views[v].chat)|
    requires Bytes(w.views[v].chat) && ServersOf(su, w.views[v].chat) != []
    ensures var steps := Fetches(v, k, |ServersOf(su, w.views[v].chat)|) + [FinishPoll(v)];
      Possible(su, w, steps) && After(su, w, steps) == PollDone(su, w, v)
    decreases |ServersOf(su, w.views[v].chat)| - k
  {
    hide Do, Enabled, Inv, Agreed, PolledTo, PollDone, ServersOf, Bytes, ViewShape;
    PollAdvances(su, w, v, k);
    var n := |ServersOf(su, w.views[v].chat)|;
    var next := Do(su, w, PollStep(v, k, n));
    var rest := if k == n then [] else Fetches(v, k + 1, n) + [FinishPoll(v)];
    if k < n { FetchesRun(su, next, v, k + 1); }
    RunFirst(su, w, PollStep(v, k, n), rest);
    assert Fetches(v, k, n) + [FinishPoll(v)] == [PollStep(v, k, n)] + rest;
  }

  lemma StartOne(su: Setup, w: World, v: string)
    requires Agreed(su) && Inv(su, w) && v in w.views && w.views[v].poll == None
    ensures Enabled(su, w, StartPoll(v)) && Bytes(w.views[v].chat) && ServersOf(su, w.views[v].chat) != []
    ensures forall u :: u in w.views ==> ViewShape(su, w.views[u])
    ensures var next := Do(su, w, StartPoll(v));
      && v in next.views && next.views[v].chat == w.views[v].chat && PolledTo(su, next, next.views[v], 0)
      && PollDone(su, next, v) == PollDone(su, w, v)
  {
    var view := w.views[v];
    assert ViewOk(su, w.sent, view);
    var view' := view.(poll := Some(Poll(view.cursor, seq(|ServersOf(su, view.chat)|, _ => None))));
    assert Do(su, w, StartPoll(v)) == SetView(w, v, view');
    hide PollDone, Polled, Inv, ViewOk;
    SameDone(su, w, v, view');
  }

  // A full poll is possible, and it leaves everything but the view as it was.
  lemma FullPollRuns(su: Setup, w: World, v: string)
    requires Agreed(su) && Inv(su, w) && v in w.views && w.views[v].poll == None
    ensures var steps := FullPoll(v, |ServersOf(su, w.views[v].chat)|);
      && Bytes(w.views[v].chat) && ServersOf(su, w.views[v].chat) != []
      && Possible(su, w, steps) && After(su, w, steps) == PollDone(su, w, v)
  {
    hide Do, Inv, Agreed, Enabled, PolledTo, PollDone, ServersOf, Bytes, ViewShape;
    StartOne(su, w, v);
    Protocol.StepKeeps(su, w, StartPoll(v));
    FetchesRun(su, Do(su, w, StartPoll(v)), v, 0);
    RunFirst(su, w, StartPoll(v), Fetches(v, 0, |ServersOf(su, w.views[v].chat)|) + [FinishPoll(v)]);
  }

  ghost predicate StoredPast(su: Setup, w: World, chat: string, i: int, m: string, t: int) {
    exists r :: OnServer(su, w, chat, i, r) && r.messageId == m && r.timestamp > t
  }

  ghost predicate AllPast(su: Setup, w: World, chat: string, m: string, t: int) {
    forall i :: 0 <= i < |ServersOf(su, chat)| ==> StoredPast(su, w, chat, i, m, t)
  }

  lemma AnswersPast(su: Setup, w: World, view: View, m: string)
    requires Agreed(su) && ViewOk(su, w.sent, view)
    ensures Bytes(view.chat)
    ensures var results := Results(Polled(su, w, view).poll.value);
      && |results| == |ServersOf(su, view.chat)|
      && (forall i, f :: 0 <= i < |results| && f in results[i] ==> OnServer(su, w, view.chat, i, f))
      && (Complete(results, m) <==> AllPast(su, w, view.chat, m, view.cursor))
  {
    var asked := view.(poll := Some(Poll(view.cursor, seq(|ServersOf(su, view.chat)|, _ => None))));
    var results := Results(Polled(su, w, view).poll.value);
    forall i | 0 <= i < |results|
      ensures forall f :: f in results[i] ==> OnServer(su, w, view.chat, i, f)
      ensures Has(results[i], m) <==> StoredPast(su, w, view.chat, i, m, view.cursor)
    {
      AnswerMeaning(su, w, asked, i);
      assert results[i] == Answer(su, w, asked, i);
      hide Answer, Polled, ViewOk;
      if StoredPast(su, w, view.chat, i, m, view.cursor) {
        var r :| OnServer(su, w, view.chat, i, r) && r.messageId == m && r.timestamp > view.cursor;
        assert r in results[i];
      }
    }
  }

  ghost function AfterFullPoll(su: Setup, w: World, v: string): (w': World)
    requires Agreed(su) && Inv(su, w) && v in w.views && w.views[v].poll == None
    ensures Inv(su, w') && v in w'.views
  {
    FullPollRuns(su, w, v);
    After(su, w, FullPoll(v, |ServersOf(su, w.views[v].chat)|))
  }

  // A poll that reaches every server delivers exactly the messages of which
  // every server holds a row stamped after the cursor.
  lemma FullPollExactly(su: Setup, w: World, v: string)
    requires Agreed(su) && Inv(su, w) && v in w.views && w.views[v].poll == None
    ensures var view, w' := w.views[v], AfterFullPoll(su, w, v);
      var view' := w'.views[v];
      && w' == SetView(w, v, view') && view'.chat == view.chat && view'.poll == None && view'.cursor >= view.cursor
      && (forall m :: m in Held(view') <==> m in Held(view) || AllPast(su, w, view.chat, m, view.cursor))
      && (forall r :: OnServer(su, w, view.chat, 0, r) && r.messageId in Held(view') && r.messageId !in Held(view) ==>
            r.timestamp <= view'.cursor)
  {
    FullPollRuns(su, w, v);
    var view, w' := w.views[v], AfterFullPoll(su, w, v);
    assert ViewOk(su, w.sent, view);
    var polled := Polled(su, w, view);
    assert w' == SetView(w, v, AfterPoll(su, polled));
    hide Inv, Agreed, ViewOk, AfterFullPoll, FullPoll, Possible, After, OnServer;
    PolledDelivers(su, w, view);
  }

  // The view after a poll with every server's answer.
  lemma PolledDelivers(su: Setup, w: World, view: View)
    requires Agreed(su) && Inv(su, w) && ViewOk(su, w.sent, view)
    ensures Bytes(view.chat)
    ensures var polled := Polled(su, w, view); AllFetched(polled.poll.value) && polled.poll.value.results != []
    ensures var view' := AfterPoll(su, Polled(su, w, view));
      && view'.chat == view.chat && view'.poll == None && view'.cursor >= view.cursor
      && (forall m :: m in Held(view') <==> m in Held(view) || AllPast(su, w, view.chat, m, view.cursor))
      && (forall r :: OnServer(su, w, view.chat, 0, r) && r.messageId in Held(view') && r.messageId !in Held(view) ==>
            r.timestamp <= view'.cursor)
  {
    var polled := Polled(su, w, view);
    var view', results, added := AfterPoll(su, polled), Results(polled.poll.value), Received(su, polled);
    AddedExactly(view.chat, results, Held(view), Opener(su.cipher, Key(su, view.chat)));
    CursorIsMax(view.cursor, added);
    assert Held(view') == Held(view) + Ids(added);
    hide Inv, Agreed, ViewOk, Polled, AfterPoll, Received;
    forall m ensures m in Ids(added) <==> m !in Held(view) && AllPast(su, w, view.chat, m, view.cursor) {
      AnswersPast(su, w, view, m);
    }
    forall r | OnServer(su, w, view.chat, 0, r) && r.messageId in Ids(added) ensures r.timestamp <= view'.cursor {
      var x :| x in added && x.id == r.messageId;
      FirstIsMember(results[0], x.id);
      AnswersPast(su, w, view, x.id);
      OneRow(su, w, view.chat, 0, r, First(results[0], x.id));
    }
  }

  // ---- Late pieces ----

  // The handler's checks accept every piece of the message.
  ghost predicate Acceptable(su: Setup, p: Sending, m: string) {
    forall i :: 0 <= i < |ServersOf(su, p.chat)| ==>
      |PostBody(Piece(su, p, m, i))| <= su.maxBytes && FirstMissing(Piece(su, p, m, i)) == None
  }

  ghost predicate Postable(su: Setup, w: World, m: string) { m in w.sent && Acceptable(su, w.sent[m], m) }

  // Posting an acceptable piece adds its row unless the server has it.
  lemma PostAddsRow(su: Setup, w: World, m: string, i: nat, now: int)
    requires Agreed(su) && Inv(su, w) && Postable(su, w, m) && i < |ServersOf(su, w.sent[m].chat)| &&
      0 <= now < INT64_BOUND
    ensures Enabled(su, w, Post(m, i, now)) && forall v :: v in w.views ==> ViewShape(su, w.views[v])
    ensures var chat, w' := w.sent[m].chat, Do(su, w, Post(m, i, now));
      var r0 := Piece(su, w.sent[m], m, i).(timestamp := now);
      && w'.sent == w.sent && w'.views == w.views
      && (if Stored(su, w, chat, i, m) then SameRows(su, w, w', chat) else OneRowMore(su, w, w', chat, i, r0))
  {
    hide Inv, Agreed, SameRows, OneRowMore, Stored, PostBody, FirstMissing, Do, Piece;
    ShapesOk(su, w);
    PostRows(su, w, Post(m, i, now), w.sent[m].chat);
  }

  // From w to w' the missing pieces k, ..., n - 1 arrived, each stamped by its server's clock.
  ghost predicate Arrived(su: Setup, w: World, w': World, chat: string, m: string, k: nat, n: nat, stamps: seq<int>)
    requires n <= |stamps|
  {
    && w'.sent == w.sent && w'.views == w.views
    && (forall j, t :: StoredPast(su, w', chat, j, m, t) <==>
          (StoredPast(su, w, chat, j, m, t) || (k <= j < n && stamps[j] > t && !Stored(su, w, chat, j, m))))
    && (forall j :: Stored(su, w', chat, j, m) <==> Stored(su, w, chat, j, m) || k <= j < n)
    && (forall j, r :: OnServer(su, w, chat, j, r) ==> OnServer(su, w', chat, j, r))
    && (forall j, r :: OnServer(su, w', chat, j, r) && r.messageId != m ==> OnServer(su, w, chat, j, r))
  }

  predicate ClockReadings(stamps: seq<int>) { forall j :: 0 <= j < |stamps| ==> 0 <= stamps[j] < INT64_BOUND }

  lemma OneArrived(su: Setup, w: World, w': World, chat: string, m: string, i: nat, r0: Fragment, stamps: seq<int>)
    requires w'.sent == w.sent && w'.views == w.views && r0.messageId == m && i < |stamps| && r0.timestamp == stamps[i]
    requires if Stored(su, w, chat, i, m) then SameRows(su, w, w', chat) else OneRowMore(su, w, w', chat, i, r0)
    ensures Arrived(su, w, w', chat, m, i, i + 1, stamps)
  {
    hide OnServer;
    if !Stored(su, w, chat, i, m) { assert OnServer(su, w', chat, i, r0); }
  }

  lemma PostOne(su: Setup, w: World, m: string, i: nat, stamps: seq<int>)
    requires Agreed(su) && Inv(su, w) && Postable(su, w, m) && i < |ServersOf(su, w.sent[m].chat)|
    requires i < |stamps| && ClockReadings(stamps)
    ensures Enabled(su, w, Post(m, i, stamps[i])) && forall v :: v in w.views ==> ViewShape(su, w.views[v])
    ensures var w' := Do(su, w, Post(m, i, stamps[i]));
      Inv(su, w') && w'.sent == w.sent && Postable(su, w', m) && Arrived(su, w, w', w.sent[m].chat, m, i, i + 1, stamps)
  {
    var now := stamps[i];
    hide SameRows, OneRowMore, Stored, StoredPast, PostBody, FirstMissing, Arrived, SplitPayload, Agreed, Inv;
    hide Acceptable, Do;
    PostAddsRow(su, w, m, i, now);
    Protocol.StepKeeps(su, w, Post(m, i, now));
    var chat, w', r0 := w.sent[m].chat, Do(su, w, Post(m, i, now)), Piece(su, w.sent[m], m, i).(timestamp := now);
    OneArrived(su, w, w', chat, m, i, r0, stamps);
  }

  // All pieces of the message from position k on, posted or posted again, each
  // at its own server's time.
  function PostAll(m: string, k: nat, stamps: seq<int>): seq<Step>
    decreases |stamps| - k
  {
    if k >= |stamps| then [] else [Post(m, k, stamps[k])] + PostAll(m, k + 1, stamps)
  }

  lemma NoneArrived(su: Setup, w: World, chat: string, m: string, k: nat, stamps: seq<int>)
    requires k >= |stamps|
    ensures Arrived(su, w, w, chat, m, k, |stamps|, stamps)
  {}

  lemma ArrivedMore(su: Setup, w: World, w1: World, w2: World, chat: string, m: string, k: nat, stamps: seq<int>)
    requires k < |stamps| && Arrived(su, w, w1, chat, m, k, k + 1, stamps) &&
      Arrived(su, w1, w2, chat, m, k + 1, |stamps|, stamps)
    ensures Arrived(su, w, w2, chat, m, k, |stamps|, stamps)
  {
    hide StoredPast, Stored, OnServer;
  }

  ghost predicate PostsArrive(su: Setup, w: World, m: string, k: nat, stamps: seq<int>)
    requires Agreed(su) && Inv(su, w) && m in w.sent
  {
    && Possible(su, w, PostAll(m, k, stamps))
    && Arrived(su, w, After(su, w, PostAll(m, k, stamps)), w.sent[m].chat, m, k, |stamps|, stamps)
  }

  lemma PostsStep(su: Setup, w: World, m: string, k: nat, stamps: seq<int>)
    requires Agreed(su) && Inv(su, w) && m in w.sent && Postable(su, w, m) && k < |stamps|
    requires Enabled(su, w, Post(m, k, stamps[k])) && forall v :: v in w.views ==> ViewShape(su, w.views[v])
    requires var next := Do(su, w, Post(m, k, stamps[k]));
      && Inv(su, next) && next.sent == w.sent && Arrived(su, w, next, w.sent[m].chat, m, k, k + 1, stamps)
      && PostsArrive(su, next, m, k + 1, stamps)
    ensures PostsArrive(su, w, m, k, stamps)
  {
    hide Do, Inv, Agreed, Enabled, ViewShape, ServersOf, Arrived, Postable, Possible, After;
    var chat, next := w.sent[m].chat, Do(su, w, Post(m, k, stamps[k]));
    ArrivedMore(su, w, next, After(su, next, PostAll(m, k + 1, stamps)), chat, m, k, stamps);
    RunFirst(su, w, Post(m, k, stamps[k]), PostAll(m, k + 1, stamps));
  }

  lemma {:induction false} PostAllRuns(su: Setup, w: World, m: string, k: nat, stamps: seq<int>)
    requires Agreed(su) && Inv(su, w) && m in w.sent && Postable(su, w, m)
    requires |stamps| == |ServersOf(su, w.sent[m].chat)| && ClockReadings(stamps)
    ensures PostsArrive(su, w, m, k, stamps)
    decreases |stamps| - k
  {
    hide Do, Inv, Agreed, Enabled, ViewShape, ServersOf, Arrived, Acceptable;
    if k >= |stamps| {
      NoneArrived(su, w, w.sent[m].chat, m, k, stamps);
    } else {
      PostOne(su, w, m, k, stamps);
      PostAllRuns(su, Do(su, w, Post(m, k, stamps[k])), m, k + 1, stamps);
      PostsStep(su, w, m, k, stamps);
    }
  }

  // Every piece stored, and every stamp that a missing one will get, lies after the cursor.
  ghost predicate AllAfter(su: Setup, w: World, view: View, m: string, stamps: seq<int>)
    requires |stamps| == |ServersOf(su, view.chat)|
  {
    && (forall i, r :: OnServer(su, w, view.chat, i, r) && r.messageId == m ==> r.timestamp > view.cursor)
    && (forall i :: 0 <= i < |stamps| && !Stored(su, w, view.chat, i, m) ==> stamps[i] > view.cursor)
  }

  // Pieces that reach their servers late: once all have arrived, each stamped by
  // its own server, the next full poll delivers the message exactly when every
  // piece that was there before and every stamp of a late one is after the cursor.
  lemma LateDelivery(su: Setup, w: World, v: string, m: string, stamps: seq<int>)
    requires Agreed(su) && Inv(su, w) && v in w.views && w.views[v].poll == None
    requires Postable(su, w, m) && w.sent[m].chat == w.views[v].chat && m !in Held(w.views[v])
    requires |stamps| == |ServersOf(su, w.views[v].chat)| && ClockReadings(stamps)
    ensures var steps := PostAll(m, 0, stamps) + FullPoll(v, |stamps|);
      && Possible(su, w, steps)
      && v in After(su, w, steps).views
      && (m in Held(After(su, w, steps).views[v]) <==> AllAfter(su, w, w.views[v], m, stamps))
  {
    var view := w.views[v];
    assert ViewOk(su, w.sent, view);
    PostAllRuns(su, w, m, 0, stamps);
    var w1 := After(su, w, PostAll(m, 0, stamps));
    FullPollRuns(su, w1, v);
    FullPollExactly(su, w1, v);
    RunThen(su, w, PostAll(m, 0, stamps), FullPoll(v, |stamps|));
    hide OnServer, Inv, Agreed, ViewOk, Postable, PostAll, FullPoll, Possible, After, AllAfter, AllPast;
    PastIsAfter(su, w, w1, view, m, stamps);
  }

  lemma PastIsAfter(su: Setup, w: World, w1: World, view: View, m: string, stamps: seq<int>)
    requires Agreed(su) && Inv(su, w) && view.chat in su.servers && |stamps| == |ServersOf(su, view.chat)|
    requires Arrived(su, w, w1, view.chat, m, 0, |stamps|, stamps)
    ensures AllPast(su, w1, view.chat, m, view.cursor) <==> AllAfter(su, w, view, m, stamps)
  {
    hide OnServer, Inv, Agreed, ServersOf;
    if AllPast(su, w1, view.chat, m, view.cursor) {
      forall i, r | OnServer(su, w, view.chat, i, r) && r.messageId == m ensures r.timestamp > view.cursor {
        InRange(su, w, view.chat, i, r);
        assert StoredPast(su, w1, view.chat, i, m, view.cursor) && Stored(su, w, view.chat, i, m);
        var r' :| OnServer(su, w, view.chat, i, r') && r'.messageId == m && r'.timestamp > view.cursor;
        OneRow(su, w, view.chat, i, r, r');
      }
      forall i | 0 <= i < |stamps| && !Stored(su, w, view.chat, i, m) ensures stamps[i] > view.cursor {
        assert StoredPast(su, w1, view.chat, i, m, view.cursor);
      }
    }
    if AllAfter(su, w, view, m, stamps) {
      forall i | 0 <= i < |stamps| ensures StoredPast(su, w1, view.chat, i, m, view.cursor) {
        if Stored(su, w, view.chat, i, m) {
          var r :| OnServer(su, w, view.chat, i, r) && r.messageId == m;
          assert StoredPast(su, w, view.chat, i, m, view.cursor);
        }
      }
    }
  }

  lemma InRange(su: Setup, w: World, chat: string, i: int, r: Fragment)
    requires OnServer(su, w, chat, i, r)
    ensures 0 <= i < |ServersOf(su, chat)|
  {}

  // No run that does not renew the piece shows the message.
  ghost predicate NeverShown(su: Setup, w: World, v: string, m: string, i: nat)
    requires Agreed(su) && Inv(su, w)
  {
    forall steps :: Possible(su, w, steps) && !RunRenews(su, w, steps, v, m, i) ==>
      var w' := After(su, w, steps); v in w'.views && m !in Held(w'.views[v])
  }

  lemma BarredNeverShown(su: Setup, w: World, v: string, m: string, i: nat)
    requires Agreed(su) && Inv(su, w) && Barred(su, w, v, m, i)
    ensures NeverShown(su, w, v, m, i)
  {
    forall steps | Possible(su, w, steps) && !RunRenews(su, w, steps, v, m, i)
      ensures var w' := After(su, w, steps); v in w'.views && m !in Held(w'.views[v])
    {
      BarredForever(su, w, steps, v, m, i);
    }
  }

  // It stays so along such a run.
  lemma StillLost(su: Setup, w: World, first: seq<Step>, v: string, m: string, i: nat)
    requires Agreed(su) && Inv(su, w) && NeverShown(su, w, v, m, i) && Possible(su, w, first)
    requires !RunRenews(su, w, first, v, m, i)
    ensures NeverShown(su, After(su, w, first), v, m, i)
  {
    hide Inv, Agreed, RunRenews;
    forall steps | Possible(su, After(su, w, first), steps) && !RunRenews(su, After(su, w, first), steps, v, m, i)
      ensures var w' := After(su, After(su, w, first), steps); v in w'.views && m !in Held(w'.views[v])
    {
      RunThen(su, w, first, steps);
      RenewsThen(su, w, first, steps, v, m, i);
    }
  }

  lemma {:induction false} RenewsThen(su: Setup, w: World, first: seq<Step>, rest: seq<Step>, v: string, m: string,
                                      i: nat)
    requires Agreed(su) && Inv(su, w) && Possible(su, w, first) && Possible(su, After(su, w, first), rest)
    requires Possible(su, w, first + rest)
    ensures RunRenews(su, w, first + rest, v, m, i) <==>
      RunRenews(su, w, first, v, m, i) || RunRenews(su, After(su, w, first), rest, v, m, i)
    decreases |first|
  {
    hide Do, Enabled, Inv, Agreed, Renews, ViewShape;
    if first == [] {
      assert first + rest == rest;
    } else {
      RunHead(su, w, first);
      RunHead(su, w, first + rest);
      var next := Do(su, w, first[0]);
      assert (first + rest)[0] == first[0] && (first + rest)[1..] == first[1..] + rest;
      RenewsThen(su, next, first[1..], rest, v, m, i);
    }
  }

  // A message incomplete at a full poll that delivers another one, stamped no
  // earlier than one of its stored pieces, is lost: no later run shows it,
  // though its missing pieces arrive and every later poll reaches every server.
  lemma OvertakenIsLost(su: Setup, w: World, v: string, m: string, i: nat, r: Fragment, r0: Fragment)
    requires Agreed(su) && Inv(su, w) && v in w.views && w.views[v].poll == None
    requires var view := w.views[v];
      && m !in Held(view) && !AllPast(su, w, view.chat, m, view.cursor)
      && OnServer(su, w, view.chat, i, r) && r.messageId == m
      && OnServer(su, w, view.chat, 0, r0) && r0.messageId !in Held(view) &&
        AllPast(su, w, view.chat, r0.messageId, view.cursor)
      && r.timestamp <= r0.timestamp
    ensures NeverShown(su, AfterFullPoll(su, w, v), v, m, i)
  {
    FullPollExactly(su, w, v);
    var view, w' := w.views[v], AfterFullPoll(su, w, v);
    hide AfterFullPoll, Inv, Agreed, AllPast;
    forall r' | OnServer(su, w', view.chat, i, r') && r'.messageId == m ensures r'.timestamp <= w'.views[v].cursor {
      OneRow(su, w, view.chat, i, r, r');
    }
    BarredNeverShown(su, w', v, m, i);
  }

  // The piece is gone from server i: by purge at or after its expiry, or by its id.
  predicate Removes(step: Step, server: string, r: Fragment) {
    match step
    case PurgeRows(s, now) => s == server && r.ttl > 0 && r.timestamp + r.ttl <= now
    case DeleteRow(s, id) => s == server && Text.CText(id) == r.id
    case _ => false
  }

  lemma RemovedRow(su: Setup, w: World, step: Step, s: string, r: Fragment)
    requires Agreed(su) && Enabled(su, w, step) && Removes(step, s, r)
    requires forall v :: v in w.views ==> ViewShape(su, w.views[v])
    ensures r !in Rows(Do(su, w, step), s)
  {
    var gone := if step.DeleteRow? then WithId(Text.CText(step.id)) else Expired(step.now);
    FilterMembers(Rows(w, s), Not(gone));
    assert Holds(gone, r);
    assert Rows(Do(su, w, step), s) == Filter(Rows(w, s), Not(gone));
  }

  lemma RemovedLeavesNone(su: Setup, w: World, step: Step, chat: string, i: nat, r: Fragment, r': Fragment)
    requires Agreed(su) && Inv(su, w) && Enabled(su, w, step) && chat in su.servers
    requires OnServer(su, w, chat, i, r) && Removes(step, ServersOf(su, chat)[i], r)
    ensures !(OnServer(su, Do(su, w, step), chat, i, r') && r'.messageId == r.messageId)
  {
    RemovedRow(su, w, step, ServersOf(su, chat)[i], r);
    hide Do, Inv, Agreed, Enabled;
    if OnServer(su, Do(su, w, step), chat, i, r') && r'.messageId == r.messageId {
      NewRowIsPosted(su, w, step, chat, r.messageId, i, r');
      OneRow(su, w, chat, i, r, r');
    }
  }

  // A message is lost with any one of its pieces, for every client that has not fetched that piece.
  lemma RemovedIsLost(su: Setup, w: World, step: Step, v: string, i: nat, r: Fragment)
    requires Agreed(su) && Inv(su, w) && Enabled(su, w, step) && v in w.views
    requires var view := w.views[v];
      && OnServer(su, w, view.chat, i, r) && Removes(step, ServersOf(su, view.chat)[i], r)
      && r.messageId !in Held(view)
      && (view.poll.Some? && i < |view.poll.value.results| && view.poll.value.results[i].Some? ==>
            !Has(view.poll.value.results[i].value, r.messageId))
    ensures Inv(su, Do(su, w, step)) && NeverShown(su, Do(su, w, step), v, r.messageId, i)
  {
    Protocol.StepKeeps(su, w, step);
    var view, after := w.views[v], Do(su, w, step);
    assert ViewOk(su, w.sent, view);
    assert after.views == w.views;
    hide Do, Inv, Agreed, Removes, Enabled;
    forall r' ensures !(OnServer(su, after, view.chat, i, r') && r'.messageId == r.messageId) {
      RemovedLeavesNone(su, w, step, view.chat, i, r, r');
    }
    BarredNeverShown(su, after, v, r.messageId, i);
  }

  lemma ReloadEffect(su: Setup, w: World, v: string)
    requires Agreed(su) && Inv(su, w) && v in w.views
    ensures Enabled(su, w, Reload(v)) && (forall u :: u in w.views ==> ViewShape(su, w.views[u])) &&
      w.views[v].chat in su.servers
    ensures var w1 := Do(su, w, Reload(v));
      Inv(su, w1) && w1 == SetView(w, v, w.views[v].(messages := [], poll := None))
  {
    Protocol.StepKeeps(su, w, Reload(v));
    hide SendingOk, TableOk, Agreed;
  }

  // A page reload empties the list and keeps the cursor: a message one of whose
  // pieces the cursor has reached is never shown again.
  lemma ReloadForgets(su: Setup, w: World, v: string, i: nat, r: Fragment)
    requires Agreed(su) && Inv(su, w) && v in w.views
    requires OnServer(su, w, w.views[v].chat, i, r) && r.timestamp <= w.views[v].cursor
    ensures Enabled(su, w, Reload(v)) && forall u :: u in w.views ==> ViewShape(su, w.views[u])
    ensures var w1 := Do(su, w, Reload(v)); Inv(su, w1) && NeverShown(su, w1, v, r.messageId, i)
  {
    var view := w.views[v];
    ReloadEffect(su, w, v);
    var w1 := Do(su, w, Reload(v));
    hide Inv, Agreed, Do;
    forall r' | OnServer(su, w1, view.chat, i, r') && r'.messageId == r.messageId ensures r'.timestamp <= view.cursor {
      OneRow(su, w, view.chat, i, r, r');
    }
    BarredNeverShown(su, w1, v, r.messageId, i);
  }

  // Whatever a full poll delivered is never shown again once the page is reloaded.
  lemma PolledIsForgotten(su: Setup, w: World, v: string, m: string)
    requires Agreed(su) && Inv(su, w) && v in w.views && w.views[v].poll == None
    requires m !in Held(w.views[v]) && m in Held(AfterFullPoll(su, w, v).views[v])
    ensures var w' := AfterFullPoll(su, w, v);
      Enabled(su, w', Reload(v)) && forall u :: u in w'.views ==> ViewShape(su, w'.views[u])
    ensures var w1 := Do(su, AfterFullPoll(su, w, v), Reload(v)); Inv(su, w1) && NeverShown(su, w1, v, m, 0)
  {
    var view, w' := w.views[v], AfterFullPoll(su, w, v);
    FullPollExactly(su, w, v);
    assert |ServersOf(su, view.chat)| > 0 by { assert ViewOk(su, w.sent, view); }
    hide AfterFullPoll, Inv, Agreed, Do, NeverShown, ServersOf;
    assert StoredPast(su, w, view.chat, 0, m, view.cursor);
    var r :| OnServer(su, w, view.chat, 0, r) && r.messageId == m && r.timestamp > view.cursor;
    assert OnServer(su, w', view.chat, 0, r);
    ReloadForgets(su, w', v, 0, r);
  }
}
