// No message is skipped: under one common order and forward clocks the cursor
// stays below every undelivered message, and the next full poll delivers it.

module Delivery {
  import opened Options
  import opened Fragments
  import opened Payload
  import opened Query
  import opened Polling
  import opened Handlers
  import opened Protocol

  // A row of the chat on its server i.
  predicate OnServer(su: Setup, w: World, chat: string, i: int, r: Fragment) {
    0 <= i < |ServersOf(su, chat)| && r in Rows(w, ServersOf(su, chat)[i]) && r.chatId == chat
  }

  ghost predicate Stored(su: Setup, w: World, chat: string, i: int, m: string) {
    exists r :: OnServer(su, w, chat, i, r) && r.messageId == m
  }

  // ---- Hypotheses on clocks and order ----

  ghost predicate Earlier(rank: map<string, int>, m: string, m': string) {
    m in rank && m' in rank && rank[m] < rank[m']
  }

  // The chat's messages are ranked; clocks are past the epoch.
  ghost predicate Ranked(su: Setup, w: World, chat: string, rank: map<string, int>) {
    && (forall m, m' :: m in rank && m' in rank && rank[m] == rank[m'] ==> m == m')
    && (forall i, r :: OnServer(su, w, chat, i, r) ==> r.messageId in rank && r.timestamp > 0)
  }

  // Every server received the chat's messages in the one order of their ranks.
  ghost predicate SameOrder(su: Setup, w: World, chat: string, rank: map<string, int>) {
    forall i, m, r :: OnServer(su, w, chat, i, r) && Earlier(rank, m, r.messageId) ==> Stored(su, w, chat, i, m)
  }

  // Every piece of a later message is stamped after the first server's stamp of an earlier one.
  ghost predicate ForwardClock(su: Setup, w: World, chat: string, rank: map<string, int>) {
    forall i, r, r0 ::
      OnServer(su, w, chat, i, r) && OnServer(su, w, chat, 0, r0) && Earlier(rank, r0.messageId, r.messageId) ==>
        r0.timestamp < r.timestamp
  }

  ghost predicate Orderly(su: Setup, w: World, chat: string, rank: map<string, int>) {
    Ranked(su, w, chat, rank) && SameOrder(su, w, chat, rank) && ForwardClock(su, w, chat, rank)
  }

  // No row of the chat is deleted or purged.
  ghost predicate Grows(su: Setup, w: World, w': World, chat: string) {
    forall i, r :: OnServer(su, w, chat, i, r) ==> OnServer(su, w', chat, i, r)
  }

  // A run in which every state is orderly and no row of the chat is lost.
  ghost predicate OrderlyRun(su: Setup, w: World, steps: seq<Step>, chat: string, rank: map<string, int>)
    requires Agreed(su) && Inv(su, w) && Possible(su, w, steps)
    decreases |steps|
  {
    && Orderly(su, w, chat, rank)
    && (steps == [] || (
          Protocol.StepKeeps(su, w, steps[0]);
          var next := Do(su, w, steps[0]);
          Grows(su, w, next, chat) && OrderlyRun(su, next, steps[1..], chat, rank)))
  }

  // ---- The cursor never passes an undelivered message ----

  function Held(view: View): set<string> { Ids(view.messages) }

  // What the client holds of the chat.
  function HeldAt(w: World, v: string): set<string> { if v in w.views then Held(w.views[v]) else {} }

  // The messages the client was ever shown: `seen` before the run, and all it
  // held after any of its steps. A reload empties the list, not this set.
  ghost function Seen(su: Setup, w: World, steps: seq<Step>, v: string, seen: set<string>): set<string>
    requires Agreed(su) && Inv(su, w) && Possible(su, w, steps)
    decreases |steps|
  {
    if steps == [] then seen
    else
      Protocol.StepKeeps(su, w, steps[0]);
      var next := Do(su, w, steps[0]);
      Seen(su, next, steps[1..], v, seen + HeldAt(next, v))
  }

  // Every stored piece of every message the client was never shown is stamped after its cursor.
  ghost predicate Ahead(su: Setup, w: World, view: View, seen: set<string>) {
    forall i, r :: OnServer(su, w, view.chat, i, r) && r.messageId !in seen ==> r.timestamp > view.cursor
  }

  ghost predicate SeenUpTo(seen: set<string>, rank: map<string, int>, m: string) {
    m in seen && forall k :: Earlier(rank, k, m) ==> k in seen
  }

  // The cursor is the first server's stamp of a message up to which the client was shown all.
  ghost predicate Anchored(su: Setup, w: World, view: View, rank: map<string, int>, seen: set<string>) {
    view.cursor == 0 ||
    exists r :: OnServer(su, w, view.chat, 0, r) && r.timestamp == view.cursor && SeenUpTo(seen, rank, r.messageId)
  }

  // What a server returned to the poll in flight: its rows, and with each of them
  // every earlier message that the client was never shown.
  ghost predicate InOrder(su: Setup, w: World, chat: string, rank: map<string, int>, seen: set<string>, i: nat,
                          frags: seq<Fragment>) {
    && (forall f :: f in frags ==> OnServer(su, w, chat, i, f))
    && (forall f, m :: f in frags && Earlier(rank, m, f.messageId) && m !in seen ==> Has(frags, m))
  }

  ghost predicate FetchedInOrder(su: Setup, w: World, view: View, rank: map<string, int>, seen: set<string>) {
    view.poll.Some? ==> forall i :: 0 <= i < |view.poll.value.results| && view.poll.value.results[i].Some? ==>
      InOrder(su, w, view.chat, rank, seen, i, view.poll.value.results[i].value)
  }

  ghost predicate Safe(su: Setup, w: World, view: View, rank: map<string, int>, seen: set<string>) {
    Held(view) <= seen && Anchored(su, w, view, rank, seen) && FetchedInOrder(su, w, view, rank, seen)
  }

  lemma AnchoredIsAhead(su: Setup, w: World, view: View, rank: map<string, int>, seen: set<string>)
    requires Orderly(su, w, view.chat, rank) && Anchored(su, w, view, rank, seen)
    ensures Ahead(su, w, view, seen)
  {
    forall i, r | OnServer(su, w, view.chat, i, r) && r.messageId !in seen ensures r.timestamp > view.cursor {
      if view.cursor != 0 {
        var r0 :| OnServer(su, w, view.chat, 0, r0) && r0.timestamp == view.cursor &&
          SeenUpTo(seen, rank, r0.messageId);
        assert Earlier(rank, r0.messageId, r.messageId);
      }
    }
  }

  lemma AnchorStays(su: Setup, w: World, w': World, view: View, view': View, rank: map<string, int>,
                    seen: set<string>, seen': set<string>)
    requires Anchored(su, w, view, rank, seen) && Grows(su, w, w', view.chat) && seen <= seen'
    requires view'.chat == view.chat && view'.cursor == view.cursor
    ensures Anchored(su, w', view', rank, seen')
  {
    hide OnServer;
    if view.cursor != 0 {
      var r :| OnServer(su, w, view.chat, 0, r) && r.timestamp == view.cursor && SeenUpTo(seen, rank, r.messageId);
      assert SeenUpTo(seen', rank, r.messageId);
    }
  }

  // Rows and messages may be added; the poll stays or is given up, and the cursor stays.
  lemma GrowthKeepsSafe(su: Setup, w: World, w': World, view: View, view': View, rank: map<string, int>,
                        seen: set<string>, seen': set<string>)
    requires Safe(su, w, view, rank, seen) && Grows(su, w, w', view.chat) && seen <= seen' && Held(view') <= seen'
    requires view'.chat == view.chat && view'.cursor == view.cursor && (view'.poll == view.poll || view'.poll == None)
    ensures Safe(su, w', view', rank, seen')
  {
    hide Held, OnServer;
    AnchorStays(su, w, w', view, view', rank, seen, seen');
    if view'.poll.Some? {
      forall i | 0 <= i < |view.poll.value.results| && view.poll.value.results[i].Some?
        ensures InOrder(su, w', view.chat, rank, seen', i, view.poll.value.results[i].value)
      {
        assert InOrder(su, w, view.chat, rank, seen, i, view.poll.value.results[i].value);
      }
    }
  }

  // A fetched result brings, with each row, every earlier message never shown.
  lemma AnswerInOrder(su: Setup, w: World, view: View, rank: map<string, int>, seen: set<string>, i: nat)
    requires Agreed(su) && ViewOk(su, w.sent, view) && view.poll.Some? && i < |ServersOf(su, view.chat)|
    requires Orderly(su, w, view.chat, rank) && Anchored(su, w, view, rank, seen)
    ensures Bytes(view.chat) && InOrder(su, w, view.chat, rank, seen, i, Answer(su, w, view, i))
  {
    AnchoredIsAhead(su, w, view, rank, seen);
    AnswerMeaning(su, w, view, i);
    assert view.poll.value.since == view.cursor;
    hide Answer, Ranked, Anchored, ViewOk;
    var frags := Answer(su, w, view, i);
    forall f, m | f in frags && Earlier(rank, m, f.messageId) && m !in seen ensures Has(frags, m) {
      assert OnServer(su, w, view.chat, i, f);
      assert Stored(su, w, view.chat, i, m);
      var r :| OnServer(su, w, view.chat, i, r) && r.messageId == m;
      assert r in frags;
    }
  }

  // One more result in order.
  lemma ResultKeepsSafe(su: Setup, w: World, view: View, rank: map<string, int>, seen: set<string>, i: nat,
                        frags: seq<Fragment>)
    requires Safe(su, w, view, rank, seen) && view.poll.Some? && i < |view.poll.value.results|
    requires InOrder(su, w, view.chat, rank, seen, i, frags)
    ensures Safe(su, w, WithResult(view, i, frags), rank, seen)
  {
    var view' := WithResult(view, i, frags);
    assert Held(view') == Held(view);
    hide Held, OnServer;
    AnchorStays(su, w, w, view, view', rank, seen, seen);
    forall k | 0 <= k < |view'.poll.value.results| && view'.poll.value.results[k].Some?
      ensures InOrder(su, w, view.chat, rank, seen, k, view'.poll.value.results[k].value)
    {
      if k != i { assert InOrder(su, w, view.chat, rank, seen, k, view.poll.value.results[k].value); }
    }
  }

  lemma FetchKeepsSafe(su: Setup, w: World, step: Step, rank: map<string, int>, seen: set<string>)
    requires Agreed(su) && Inv(su, w) && (step.Fetch? || step.FailFetch?) && Enabled(su, w, step)
    requires Orderly(su, w, w.views[step.view].chat, rank) && Safe(su, w, w.views[step.view], rank, seen)
    ensures var after := Do(su, w, step); Safe(su, after, after.views[step.view], rank, seen)
  {
    var view, after := w.views[step.view], Do(su, w, step);
    assert ViewOk(su, w.sent, view);
    AnswerInOrder(su, w, view, rank, seen, step.i);
    var frags := if step.Fetch? then Answer(su, w, view, step.i) else [];
    hide Answer, Ranked, SameOrder, ForwardClock, ViewOk, Inv, Agreed;
    ResultKeepsSafe(su, w, view, rank, seen, step.i, frags);
    var view' := WithResult(view, step.i, frags);
    assert after == SetView(w, step.view, view');
    SafeHolds(su, w, view', rank, seen);
    hide Safe;
    GrowthKeepsSafe(su, w, after, view', view', rank, seen, seen);
  }

  lemma SafeHolds(su: Setup, w: World, view: View, rank: map<string, int>, seen: set<string>)
    requires Safe(su, w, view, rank, seen)
    ensures Held(view) <= seen
  {}

  // A poll that finishes has shown, with each message it adds, every earlier one.
  lemma AddedUpTo(su: Setup, w: World, view: View, rank: map<string, int>, seen: set<string>, x: Message)
    requires view.poll.Some? && AllFetched(view.poll.value) && view.poll.value.results != []
    requires Held(view) <= seen && FetchedInOrder(su, w, view, rank, seen) && x in Received(su, view)
    ensures SeenUpTo(seen + Held(AfterPoll(su, view)), rank, x.id)
    ensures exists f :: OnServer(su, w, view.chat, 0, f) && f.messageId == x.id && f.timestamp == x.timestamp
  {
    var results, open := Results(view.poll.value), Opener(su.cipher, Key(su, view.chat));
    AddedExactly(view.chat, results, Held(view), open);
    var added, after := Received(su, view), AfterPoll(su, view);
    assert Held(after) == Held(view) + Ids(added);
    FirstIsMember(results[0], x.id);
    assert InOrder(su, w, view.chat, rank, seen, 0, results[0]);
    hide Assembled, Added, OnServer;
    forall k | Earlier(rank, k, x.id) && k !in seen ensures k in Ids(added) {
      forall i | 0 <= i < |results| ensures Has(results[i], k) {
        assert Has(results[i], x.id);
        assert InOrder(su, w, view.chat, rank, seen, i, results[i]);
      }
      assert Complete(results, k);
    }
  }

  lemma FinishKeepsSafe(su: Setup, w: World, view: View, rank: map<string, int>, seen: set<string>)
    requires view.poll.Some? && AllFetched(view.poll.value) && view.poll.value.results != []
    requires Safe(su, w, view, rank, seen)
    ensures Safe(su, w, AfterPoll(su, view), rank, seen + Held(AfterPoll(su, view)))
  {
    var added, after := Received(su, view), AfterPoll(su, view);
    CursorIsMax(view.cursor, added);
    assert Held(after) == Held(view) + Ids(added);
    if after.cursor != view.cursor {
      var x :| x in added && x.timestamp == after.cursor;
      AddedUpTo(su, w, view, rank, seen, x);
    } else {
      AnchorStays(su, w, w, view, after, rank, seen, seen + Held(after));
    }
  }

  // A step of the client's own poll or a reload.
  predicate Touches(step: Step, v: string) {
    (step.StartPoll? || step.Fetch? || step.FailFetch? || step.FinishPoll? || step.Reload?) && step.view == v
  }

  // The copy of a message that its sender adds to the list.
  function OwnCopy(w: World, step: Step): Message
    requires step.FinishSend? && step.m in w.sent
  {
    var p := w.sent[step.m];
    Message(step.m, p.chat, p.sender, p.text, step.now, step.status)
  }

  // Any other step leaves the poll and the cursor, and at most adds a message just sent.
  lemma Untouched(su: Setup, w: World, step: Step, v: string)
    requires Agreed(su) && Inv(su, w) && Enabled(su, w, step) && v in w.views && !Touches(step, v)
    ensures var after, view := Do(su, w, step), w.views[v];
      && v in after.views
      && view.chat == after.views[v].chat && view.cursor == after.views[v].cursor && view.poll == after.views[v].poll
      && after.views[v].messages ==
        view.messages + (if step.FinishSend? && step.view == v then [OwnCopy(w, step)] else [])
      && Held(after.views[v]) == Held(view) + if step.FinishSend? && step.view == v then {step.m} else {}
  {
    hide ViewOk, SendingOk, TableOk, Posted, Answer, AfterPoll, NewSending, Agreed;
  }

  lemma StartKeepsSafe(su: Setup, w: World, view: View, rank: map<string, int>, seen: set<string>, n: nat)
    requires Safe(su, w, view, rank, seen)
    ensures Safe(su, w, view.(poll := Some(Poll(view.cursor, seq(n, _ => None)))), rank, seen)
  {
    var view' := view.(poll := Some(Poll(view.cursor, seq(n, _ => None))));
    assert Held(view') == Held(view);
    hide OnServer, Held;
    AnchorStays(su, w, w, view, view', rank, seen, seen);
  }

  // What the start or end of a poll or a reload makes of the view.
  function Touched(su: Setup, view: View, step: Step): View
    requires step.StartPoll? || step.FinishPoll? || step.Reload?
    requires step.FinishPoll? ==> view.poll.Some? && AllFetched(view.poll.value) && view.poll.value.results != []
  {
    if step.StartPoll? then view.(poll := Some(Poll(view.cursor, seq(|ServersOf(su, view.chat)|, _ => None))))
    else if step.FinishPoll? then AfterPoll(su, view)
    else view.(messages := [], poll := None)
  }

  lemma OwnStep(su: Setup, w: World, step: Step, v: string)
    requires Agreed(su) && Inv(su, w) && Enabled(su, w, step) && v in w.views && Touches(step, v)
    ensures Bytes(w.views[v].chat) && forall u :: u in w.views ==> ViewShape(su, w.views[u])
    ensures Do(su, w, step) == SetView(w, v,
      if step.Fetch? then WithResult(w.views[v], step.i, Answer(su, w, w.views[v], step.i))
      else if step.FailFetch? then WithResult(w.views[v], step.i, [])
      else Touched(su, w.views[v], step))
  {
    hide Answer, AfterPoll, Inv, ViewOk, NewSending, AllSendable, Posted;
    ShapesOk(su, w);
    ViewIsOk(su, w, v);
  }

  lemma ViewIsOk(su: Setup, w: World, v: string)
    requires Inv(su, w) && v in w.views
    ensures ViewOk(su, w.sent, w.views[v])
  {}

  lemma TouchedKeepsSafe(su: Setup, w: World, view: View, step: Step, rank: map<string, int>, seen: set<string>)
    requires step.StartPoll? || step.FinishPoll? || step.Reload?
    requires step.FinishPoll? ==> view.poll.Some? && AllFetched(view.poll.value) && view.poll.value.results != []
    requires Safe(su, w, view, rank, seen)
    ensures Safe(su, w, Touched(su, view, step), rank, seen + Held(Touched(su, view, step)))
  {
    var view' := Touched(su, view, step);
    hide AfterPoll, Safe, OnServer;
    if step.StartPoll? {
      StartKeepsSafe(su, w, view, rank, seen, |ServersOf(su, view.chat)|);
      GrowthKeepsSafe(su, w, w, view', view', rank, seen, seen + Held(view'));
    } else if step.FinishPoll? {
      FinishKeepsSafe(su, w, view, rank, seen);
    } else {
      GrowthKeepsSafe(su, w, w, view, view', rank, seen, seen + Held(view'));
    }
  }

  // Every step of an orderly run keeps it, a reload too.
  lemma StepKeepsSafe(su: Setup, w: World, step: Step, v: string, rank: map<string, int>, seen: set<string>)
    requires Agreed(su) && Inv(su, w) && Enabled(su, w, step)
    requires v in w.views && Orderly(su, w, w.views[v].chat, rank) && Safe(su, w, w.views[v], rank, seen)
    requires Grows(su, w, Do(su, w, step), w.views[v].chat)
    ensures var after := Do(su, w, step);
      && v in after.views && after.views[v].chat == w.views[v].chat
      && Safe(su, after, after.views[v], rank, seen + HeldAt(after, v))
  {
    var view, after := w.views[v], Do(su, w, step);
    if !Touches(step, v) {
      Untouched(su, w, step, v);
      HeldOf(after, v);
      hide *;
      GrowthKeepsSafe(su, w, after, view, after.views[v], rank, seen, seen + HeldAt(after, v));
    } else if step.Fetch? || step.FailFetch? {
      FetchKeepsSafe(su, w, step, rank, seen);
      hide *;
      HeldOf(after, v);
      GrowthKeepsSafe(su, after, after, after.views[v], after.views[v], rank, seen, seen + HeldAt(after, v));
    } else {
      var view' := Touched(su, view, step);
      assert after == SetView(w, v, view');
      hide Agreed, Inv, Orderly, Touched, Safe, Do;
      TouchedKeepsSafe(su, w, view, step, rank, seen);
      GrowthKeepsSafe(su, w, after, view', view', rank, seen + Held(view'), seen + Held(view'));
    }
  }

  lemma HeldOf(w: World, v: string)
    requires v in w.views
    ensures HeldAt(w, v) == Held(w.views[v])
  {}

  ghost predicate SafeHere(su: Setup, w: World, v: string, chat: string, rank: map<string, int>, seen: set<string>) {
    v in w.views && w.views[v].chat == chat ==> Safe(su, w, w.views[v], rank, seen)
  }

  lemma StepKeepsSafeHere(su: Setup, w: World, step: Step, v: string, chat: string, rank: map<string, int>,
                          seen: set<string>)
    requires Agreed(su) && Inv(su, w) && Enabled(su, w, step) && Orderly(su, w, chat, rank)
    requires forall u :: u in w.views ==> ViewShape(su, w.views[u])
    requires Grows(su, w, Do(su, w, step), chat) && SafeHere(su, w, v, chat, rank, seen)
    ensures var after := Do(su, w, step); SafeHere(su, after, v, chat, rank, seen + HeldAt(after, v))
  {
    ViewChanges(su, w, step, v);
    hide Inv, Agreed, Orderly, Do, Enabled, Grows;
    if v in w.views && w.views[v].chat == chat { StepKeepsSafe(su, w, step, v, rank, seen); }
  }

  lemma {:induction false} RunKeepsSafe(su: Setup, w: World, steps: seq<Step>, v: string, chat: string,
                                        rank: map<string, int>, seen: set<string>)
    requires Agreed(su) && Inv(su, w) && Possible(su, w, steps) && OrderlyRun(su, w, steps, chat, rank)
    requires SafeHere(su, w, v, chat, rank, seen)
    ensures SafeHere(su, After(su, w, steps), v, chat, rank, Seen(su, w, steps, v, seen))
    ensures Orderly(su, After(su, w, steps), chat, rank)
    decreases |steps|
  {
    if steps == [] {
    } else {
      Protocol.StepKeeps(su, w, steps[0]);
      var next := Do(su, w, steps[0]);
      StepKeepsSafeHere(su, w, steps[0], v, chat, rank, seen);
      RunKeepsSafe(su, next, steps[1..], v, chat, rank, seen + HeldAt(next, v));
    }
  }

  // A view keeps its chat; a view that appears is new and empty.
  lemma ViewChanges(su: Setup, w: World, step: Step, v: string)
    requires Agreed(su) && Inv(su, w) && Enabled(su, w, step)
    ensures var after := Do(su, w, step);
      if v in w.views then v in after.views && after.views[v].chat == w.views[v].chat
      else v in after.views ==> after.views[v] == View(after.views[v].chat, 0, [], None)
  {
    hide ViewOk, SendingOk, TableOk, Posted, Answer, NewSending, Agreed;
  }

  // In every state of every orderly run, reloads included, the cursor is below
  // every stored piece of every message that the client was never shown.
  lemma NothingSkipped(su: Setup, steps: seq<Step>, v: string, rank: map<string, int>)
    requires Agreed(su) && Possible(su, EMPTY_WORLD, steps) && v in After(su, EMPTY_WORLD, steps).views
    requires OrderlyRun(su, EMPTY_WORLD, steps, After(su, EMPTY_WORLD, steps).views[v].chat, rank)
    ensures Ahead(su, After(su, EMPTY_WORLD, steps), After(su, EMPTY_WORLD, steps).views[v],
      Seen(su, EMPTY_WORLD, steps, v, {}))
  {
    var w := After(su, EMPTY_WORLD, steps);
    RunKeepsSafe(su, EMPTY_WORLD, steps, v, w.views[v].chat, rank, {});
    AnchoredIsAhead(su, w, w.views[v], rank, Seen(su, EMPTY_WORLD, steps, v, {}));
  }

  // Without a reload what was shown is what is held.
  lemma {:induction false} SeenIsHeld(su: Setup, w: World, steps: seq<Step>, v: string, seen: set<string>)
    requires Agreed(su) && Inv(su, w) && Possible(su, w, steps) && HeldAt(w, v) <= seen
    requires forall k :: 0 <= k < |steps| ==> steps[k] != Reload(v)
    ensures Seen(su, w, steps, v, seen) == seen + HeldAt(After(su, w, steps), v)
    ensures HeldAt(w, v) <= HeldAt(After(su, w, steps), v)
    decreases |steps|
  {
    if steps == [] {
    } else {
      Protocol.StepKeeps(su, w, steps[0]);
      HeldGrows(su, w, steps[0], v);
      var next := Do(su, w, steps[0]);
      hide Do, Inv, Agreed, Enabled, HeldAt;
      SeenIsHeld(su, next, steps[1..], v, seen + HeldAt(next, v));
    }
  }

  lemma HeldGrows(su: Setup, w: World, step: Step, v: string)
    requires Agreed(su) && Inv(su, w) && Enabled(su, w, step) && step != Reload(v)
    requires forall u :: u in w.views ==> ViewShape(su, w.views[u])
    ensures HeldAt(w, v) <= HeldAt(Do(su, w, step), v)
  {
    hide Answer, Inv, Agreed, Received, NewCursor, Do, Enabled;
    if v in w.views {
      if Touches(step, v) { OwnStep(su, w, step, v); } else { Untouched(su, w, step, v); }
    }
  }

  // ---- The next full poll delivers ----

  ghost predicate AllStored(su: Setup, w: World, chat: string, m: string) {
    forall i :: 0 <= i < |ServersOf(su, chat)| ==> Stored(su, w, chat, i, m)
  }

  // The message was shown, or every result so far of a poll in flight has it.
  ghost predicate Coming(view: View, m: string, seen: set<string>) {
    m in seen || (view.poll.Some? ==>
      forall i :: 0 <= i < |view.poll.value.results| && view.poll.value.results[i].Some? ==>
        Has(view.poll.value.results[i].value, m))
  }

  predicate FailsFor(step: Step, v: string) { step.FailFetch? && step.view == v }

  lemma StoredGrows(su: Setup, w: World, w': World, chat: string, m: string)
    requires AllStored(su, w, chat, m) && Grows(su, w, w', chat)
    ensures AllStored(su, w', chat, m)
  {
    hide OnServer;
    forall i | 0 <= i < |ServersOf(su, chat)| ensures Stored(su, w', chat, i, m) {
      assert Stored(su, w, chat, i, m);
    }
  }

  lemma AnswerHas(su: Setup, w: World, view: View, seen: set<string>, i: nat, m: string)
    requires Agreed(su) && ViewOk(su, w.sent, view) && view.poll.Some? && i < |ServersOf(su, view.chat)|
    requires Ahead(su, w, view, seen) && m !in seen && Stored(su, w, view.chat, i, m)
    ensures Bytes(view.chat) && Has(Answer(su, w, view, i), m)
  {
    AnswerMeaning(su, w, view, i);
    assert view.poll.value.since == view.cursor;
    hide Answer, ViewOk;
    var r :| OnServer(su, w, view.chat, i, r) && r.messageId == m;
    assert r in Answer(su, w, view, i);
  }

  // A poll that finishes with the message in every result delivers it.
  lemma FinishDelivers(su: Setup, view: View, m: string, seen: set<string>)
    requires view.poll.Some? && AllFetched(view.poll.value) && view.poll.value.results != [] && Coming(view, m, seen)
    ensures m in seen + Held(AfterPoll(su, view))
  {
    var results, added := Results(view.poll.value), Received(su, view);
    AddedExactly(view.chat, results, Held(view), Opener(su.cipher, Key(su, view.chat)));
    assert Held(AfterPoll(su, view)) == Held(view) + Ids(added);
  }

  lemma ResultKeepsComing(view: View, i: nat, frags: seq<Fragment>, m: string, seen: set<string>)
    requires Coming(view, m, seen) && view.poll.Some? && i < |view.poll.value.results|
    requires m in seen || Has(frags, m)
    ensures Coming(WithResult(view, i, frags), m, seen)
  {
    hide Has;
  }

  lemma ComingMore(view: View, view': View, m: string, seen: set<string>, seen': set<string>)
    requires Coming(view, m, seen) && seen <= seen' && (view'.poll == view.poll || view'.poll == None)
    ensures Coming(view', m, seen')
  {}

  lemma StepKeepsComing(su: Setup, w: World, step: Step, v: string, m: string, seen: set<string>)
    requires Agreed(su) && Inv(su, w) && Enabled(su, w, step) && v in w.views && !FailsFor(step, v)
    requires Ahead(su, w, w.views[v], seen) && AllStored(su, w, w.views[v].chat, m) && Coming(w.views[v], m, seen)
    ensures var after := Do(su, w, step);
      && v in after.views && Coming(after.views[v], m, seen + HeldAt(after, v))
      && (step == FinishPoll(v) ==> m in seen + HeldAt(after, v))
  {
    var view, after := w.views[v], Do(su, w, step);
    assert ViewOk(su, w.sent, view);
    if !Touches(step, v) {
      Untouched(su, w, step, v);
      hide Do, Has;
      ComingMore(view, after.views[v], m, seen, seen + HeldAt(after, v));
    } else if step.Fetch? {
      if m !in seen { AnswerHas(su, w, view, seen, step.i, m); }
      var frags := Answer(su, w, view, step.i);
      assert after.views[v] == WithResult(view, step.i, frags);
      hide Do, Answer, Inv, ViewOk, Agreed, Enabled, Has;
      ResultKeepsComing(view, step.i, frags, m, seen);
      ComingMore(after.views[v], after.views[v], m, seen, seen + HeldAt(after, v));
    } else if step.FinishPoll? {
      assert after.views[v] == AfterPoll(su, view);
      hide Do, Inv, Agreed, AfterPoll, ViewOk;
      FinishDelivers(su, view, m, seen);
    } else {
      hide Inv, Agreed, ViewOk, Has;
    }
  }

  lemma {:induction false} RunDelivers(su: Setup, w: World, steps: seq<Step>, v: string, rank: map<string, int>,
                                       m: string, seen: set<string>)
    requires Agreed(su) && Inv(su, w) && Possible(su, w, steps) && v in w.views
    requires OrderlyRun(su, w, steps, w.views[v].chat, rank) && Safe(su, w, w.views[v], rank, seen)
    requires AllStored(su, w, w.views[v].chat, m) && Coming(w.views[v], m, seen)
    requires forall k :: 0 <= k < |steps| ==> !FailsFor(steps[k], v)
    ensures m in seen ==> m in Seen(su, w, steps, v, seen)
    ensures FinishPoll(v) in steps ==> m in Seen(su, w, steps, v, seen)
    decreases |steps|
  {
    if steps == [] {
    } else {
      var step, next := steps[0], Do(su, w, steps[0]);
      Protocol.StepKeeps(su, w, step);
      AnchoredIsAhead(su, w, w.views[v], rank, seen);
      StepKeepsComing(su, w, step, v, m, seen);
      StepKeepsSafe(su, w, step, v, rank, seen);
      StoredGrows(su, w, next, w.views[v].chat, m);
      hide Safe, Do, Enabled, Orderly, Inv, Agreed, Coming, AllStored, Grows, HeldAt;
      assert steps == [step] + steps[1..];
      RunDelivers(su, next, steps[1..], v, rank, m, seen + HeldAt(next, v));
    }
  }

  // Once all pieces of a message are stored, the next poll that reaches every
  // server shows it, whatever polls failed before and however often the page
  // was reloaded: either the client was shown it before, or it is now.
  lemma NextPollDelivers(su: Setup, before: seq<Step>, poll: seq<Step>, v: string, rank: map<string, int>, m: string)
    requires Agreed(su) && Possible(su, EMPTY_WORLD, before) && v in After(su, EMPTY_WORLD, before).views
    requires Possible(su, After(su, EMPTY_WORLD, before), poll)
    requires var w := After(su, EMPTY_WORLD, before);
      && OrderlyRun(su, EMPTY_WORLD, before, w.views[v].chat, rank)
      && OrderlyRun(su, w, poll, w.views[v].chat, rank)
      && AllStored(su, w, w.views[v].chat, m) && w.views[v].poll == None
    requires FinishPoll(v) in poll && forall k :: 0 <= k < |poll| ==> !FailsFor(poll[k], v)
    ensures var w, seen := After(su, EMPTY_WORLD, before), Seen(su, EMPTY_WORLD, before, v, {});
      && m in Seen(su, w, poll, v, seen)
      && (m !in seen && Reload(v) !in poll ==> m in HeldAt(After(su, w, poll), v))
  {
    var w, seen := After(su, EMPTY_WORLD, before), Seen(su, EMPTY_WORLD, before, v, {});
    RunKeepsSafe(su, EMPTY_WORLD, before, v, w.views[v].chat, rank, {});
    RunDelivers(su, w, poll, v, rank, m, seen);
    if Reload(v) !in poll {
      SeenIsHeld(su, w, poll, v, seen);
    }
  }
}
