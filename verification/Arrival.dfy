// The order of a client's list: received messages stand in the order of the
// first server's stamps, in every run, and in the order in which they were
// sent, under the hypotheses of Delivery.

module Arrival {
  import opened Options
  import opened Payload
  import opened Query
  import opened Polling
  import opened Store
  import opened Protocol
  import opened Delivery

  predicate FromPoll(x: Message) { x.status == "received" }

  // Polled messages are in the list once each, in the order of their stamps.
  ghost predicate InStampOrder(ms: seq<Message>) {
    forall i, j :: 0 <= i < j < |ms| && FromPoll(ms[i]) && FromPoll(ms[j]) ==>
      ms[i].timestamp <= ms[j].timestamp && ms[i].id != ms[j].id
  }

  ghost predicate BehindCursor(view: View) {
    forall x :: x in view.messages && FromPoll(x) ==> x.timestamp <= view.cursor
  }

  // The first server's result of the poll in flight is sorted and past the cursor.
  ghost predicate FirstSorted(view: View) {
    view.poll.Some? && view.poll.value.results != [] && view.poll.value.results[0].Some? ==>
      var frags := view.poll.value.results[0].value;
      SortedByTime(frags) && forall f :: f in frags ==> f.timestamp > view.cursor
  }

  ghost predicate Tidy(view: View) { InStampOrder(view.messages) && BehindCursor(view) && FirstSorted(view) }

  // What a poll adds is new, sorted and past the cursor.
  lemma AddedTidy(su: Setup, view: View)
    requires view.poll.Some? && AllFetched(view.poll.value) && view.poll.value.results != [] && Tidy(view)
    ensures var added := Received(su, view);
      && Ascending(added) && DistinctIds(added)
      && (forall x :: x in added ==> FromPoll(x) && x.timestamp > view.cursor && x.id !in Held(view))
  {
    var results, open := Results(view.poll.value), Opener(su.cipher, Key(su, view.chat));
    var added := Received(su, view);
    AddedExactly(view.chat, results, Held(view), open);
    assert results[0] == view.poll.value.results[0].value;
    AddedAscends(view.chat, results, Held(view), open);
    hide First, Has, Added, InStampOrder, Flatten, KeyOrder;
    forall x | x in added ensures FromPoll(x) && x.timestamp > view.cursor && x.id !in Held(view) {
      assert x.id in Ids(added);
      FirstIsMember(results[0], x.id);
    }
  }

  lemma FinishTidy(su: Setup, view: View)
    requires view.poll.Some? && AllFetched(view.poll.value) && view.poll.value.results != [] && Tidy(view)
    ensures Tidy(AfterPoll(su, view))
  {
    var old', added, after := view.messages, Received(su, view), AfterPoll(su, view);
    AddedTidy(su, view);
    CursorIsMax(view.cursor, added);
    hide Received, NewCursor, FromPoll, FirstSorted;
    assert FirstSorted(after) by { NoPollSorted(after); }
    forall i | 0 <= i < |old'| ensures old'[i] in old' && old'[i].id in Held(view) {}
    assert forall x :: x in after.messages ==> x in old' || x in added;
  }

  lemma NoPollSorted(view: View)
    requires view.poll == None
    ensures FirstSorted(view)
  {}

  lemma FetchTidy(su: Setup, w: World, view: View, i: nat)
    requires Agreed(su) && ViewOk(su, w.sent, view) && view.poll.Some? && i < |ServersOf(su, view.chat)| && Tidy(view)
    ensures Bytes(view.chat) && Tidy(WithResult(view, i, Answer(su, w, view, i)))
  {
    AnswerMeaning(su, w, view, i);
    assert view.poll.value.since == view.cursor;
    hide Answer, Agreed, ViewOk, SortedByTime, InStampOrder, FromPoll;
  }

  lemma NothingFetchedTidy(view: View, i: nat)
    requires view.poll.Some? && i < |view.poll.value.results| && Tidy(view)
    ensures Tidy(WithResult(view, i, []))
  {
    hide InStampOrder, FromPoll;
  }

  lemma CopyTidy(view: View, after: View, x: Message)
    requires Tidy(view) && !FromPoll(x) && after == view.(messages := view.messages + [x])
    ensures Tidy(after)
  {
    hide FirstSorted, FromPoll, SortedByTime;
    SameFirst(view, after);
  }

  lemma CopyStepTidy(su: Setup, w: World, step: Step, after: World)
    requires step.FinishSend? && step.m in w.sent && step.status != "received" && step.view in w.views &&
      step.view in after.views
    requires Tidy(w.views[step.view])
    requires after.views[step.view] == w.views[step.view].(messages := w.views[step.view].messages + [OwnCopy(w, step)])
    ensures Tidy(after.views[step.view])
  {
    hide Tidy;
    CopyTidy(w.views[step.view], after.views[step.view], OwnCopy(w, step));
  }

  lemma SameFirst(view: View, after: View)
    requires FirstSorted(view) && after.poll == view.poll && after.cursor == view.cursor
    ensures FirstSorted(after)
  {}

  // Starting a poll or reloading the page.
  lemma ClearedTidy(su: Setup, view: View, step: Step)
    requires Tidy(view) && (step.StartPoll? || step.Reload?)
    ensures Tidy(Touched(su, view, step))
  {
    hide SortedByTime, FromPoll, ServersOf;
  }

  // Every step keeps it.
  lemma StepTidy(su: Setup, w: World, step: Step, v: string)
    requires Agreed(su) && Inv(su, w) && Enabled(su, w, step) && v in w.views && Tidy(w.views[v])
    ensures var after := Do(su, w, step); v in after.views && Tidy(after.views[v])
  {
    hide Do, Inv, Agreed, Answer, AfterPoll, ViewOk, Tidy;
    if Touches(step, v) {
      TouchedTidy(su, w, step, v);
    } else {
      ShapesOk(su, w);
      Untouched(su, w, step, v);
      assert w.views[v].messages + [] == w.views[v].messages;
      if step.FinishSend? && step.view == v {
        CopyEnabled(su, w, step);
        CopyStepTidy(su, w, step, Do(su, w, step));
      }
    }
  }

  lemma CopyEnabled(su: Setup, w: World, step: Step)
    requires step.FinishSend? && Enabled(su, w, step)
    ensures step.m in w.sent && step.status != "received"
  {}

  lemma TouchedTidy(su: Setup, w: World, step: Step, v: string)
    requires Agreed(su) && Inv(su, w) && Enabled(su, w, step) && v in w.views && Tidy(w.views[v]) && Touches(step, v)
    ensures var after := Do(su, w, step); v in after.views && Tidy(after.views[v])
  {
    var view := w.views[v];
    assert ViewOk(su, w.sent, view);
    OwnStep(su, w, step, v);
    hide Do, Inv, Agreed, Answer, AfterPoll, ViewOk, Tidy;
    if step.Fetch? {
      FetchTidy(su, w, view, step.i);
    } else if step.FailFetch? {
      NothingFetchedTidy(view, step.i);
    } else if step.FinishPoll? {
      FinishTidy(su, view);
    } else {
      ClearedTidy(su, view, step);
    }
  }

  ghost predicate TidyHere(w: World, v: string) { v in w.views ==> Tidy(w.views[v]) }

  lemma {:induction false} RunTidy(su: Setup, w: World, steps: seq<Step>, v: string)
    requires Agreed(su) && Inv(su, w) && Possible(su, w, steps) && TidyHere(w, v)
    ensures TidyHere(After(su, w, steps), v)
    decreases |steps|
  {
    if steps == [] {
    } else {
      Protocol.StepKeeps(su, w, steps[0]);
      StepTidyHere(su, w, steps[0], v);
      hide Do, Inv, Agreed, Enabled, TidyHere;
      RunTidy(su, Do(su, w, steps[0]), steps[1..], v);
    }
  }

  lemma StepTidyHere(su: Setup, w: World, step: Step, v: string)
    requires Agreed(su) && Inv(su, w) && Enabled(su, w, step) && TidyHere(w, v)
    requires forall u :: u in w.views ==> ViewShape(su, w.views[u])
    ensures TidyHere(Do(su, w, step), v)
  {
    ViewChanges(su, w, step, v);
    hide Do, Inv, Agreed, Enabled, ViewShape;
    if v in w.views { StepTidy(su, w, step, v); }
  }

  // After any run the received messages of a list stand in the order of the
  // first server's stamps, each once, none stamped past the cursor.
  lemma ReceivedInStampOrder(su: Setup, steps: seq<Step>, v: string)
    requires Agreed(su) && Possible(su, EMPTY_WORLD, steps) && v in After(su, EMPTY_WORLD, steps).views
    ensures var view := After(su, EMPTY_WORLD, steps).views[v];
      InStampOrder(view.messages) && BehindCursor(view)
  {
    RunTidy(su, EMPTY_WORLD, steps, v);
  }

  // ---- The order of sending ----

  // The first server still holds the row from which each received message got its stamp.
  ghost predicate Rooted(su: Setup, w: World, view: View) {
    forall x :: x in view.messages && FromPoll(x) ==> HasRoot(su, w, view.chat, x)
  }

  ghost predicate HasRoot(su: Setup, w: World, chat: string, x: Message) {
    exists r :: OnServer(su, w, chat, 0, r) && r.messageId == x.id && r.timestamp == x.timestamp
  }

  lemma RootsGrow(su: Setup, w: World, w': World, chat: string, x: Message)
    requires HasRoot(su, w, chat, x) && Grows(su, w, w', chat)
    ensures HasRoot(su, w', chat, x)
  {
    hide OnServer;
  }

  lemma FinishRooted(su: Setup, w: World, view: View, rank: map<string, int>, seen: set<string>)
    requires view.poll.Some? && AllFetched(view.poll.value) && view.poll.value.results != []
    requires Rooted(su, w, view) && Safe(su, w, view, rank, seen)
    ensures Rooted(su, w, AfterPoll(su, view))
  {
    hide Received, OnServer, Anchored, FetchedInOrder;
    forall x | x in AfterPoll(su, view).messages && FromPoll(x) ensures HasRoot(su, w, view.chat, x) {
      if x !in view.messages { AddedUpTo(su, w, view, rank, seen, x); }
    }
  }

  lemma StepRooted(su: Setup, w: World, step: Step, v: string, rank: map<string, int>, seen: set<string>)
    requires Agreed(su) && Inv(su, w) && Enabled(su, w, step) && v in w.views
    requires Rooted(su, w, w.views[v]) && Safe(su, w, w.views[v], rank, seen)
    requires Grows(su, w, Do(su, w, step), w.views[v].chat)
    ensures var after := Do(su, w, step); v in after.views && Rooted(su, after, after.views[v])
  {
    var view, after := w.views[v], Do(su, w, step);
    if Touches(step, v) { OwnStep(su, w, step, v); } else { Untouched(su, w, step, v); }
    hide Do, Inv, Agreed, Answer, AfterPoll, HasRoot, Safe, Grows;
    if step == FinishPoll(v) { FinishRooted(su, w, view, rank, seen); }
    var view' := after.views[v];
    forall x | x in view'.messages && FromPoll(x) ensures HasRoot(su, after, view'.chat, x) {
      RootsGrow(su, w, after, view.chat, x);
    }
  }

  ghost predicate RootedHere(su: Setup, w: World, v: string, chat: string) {
    v in w.views && w.views[v].chat == chat ==> Rooted(su, w, w.views[v])
  }

  lemma StepRootedHere(su: Setup, w: World, step: Step, v: string, chat: string, rank: map<string, int>,
                       seen: set<string>)
    requires Agreed(su) && Inv(su, w) && Enabled(su, w, step)
    requires forall u :: u in w.views ==> ViewShape(su, w.views[u])
    requires Grows(su, w, Do(su, w, step), chat) && SafeHere(su, w, v, chat, rank, seen) && RootedHere(su, w, v, chat)
    ensures RootedHere(su, Do(su, w, step), v, chat)
  {
    ViewChanges(su, w, step, v);
    hide Do, Inv, Agreed, Enabled, ViewShape, Grows, Safe;
    if v in w.views && w.views[v].chat == chat { StepRooted(su, w, step, v, rank, seen); }
  }

  lemma {:induction false} RunRooted(su: Setup, w: World, steps: seq<Step>, v: string, chat: string,
                                     rank: map<string, int>, seen: set<string>)
    requires Agreed(su) && Inv(su, w) && Possible(su, w, steps) && OrderlyRun(su, w, steps, chat, rank)
    requires SafeHere(su, w, v, chat, rank, seen) && RootedHere(su, w, v, chat)
    ensures RootedHere(su, After(su, w, steps), v, chat)
    decreases |steps|
  {
    if steps == [] {
    } else {
      Protocol.StepKeeps(su, w, steps[0]);
      var next := Do(su, w, steps[0]);
      StepKeepsSafeHere(su, w, steps[0], v, chat, rank, seen);
      StepRootedHere(su, w, steps[0], v, chat, rank, seen);
      RunRooted(su, next, steps[1..], v, chat, rank, seen + HeldAt(next, v));
    }
  }

  // Two rows of the first server stamped in this order belong to messages ranked in this order.
  lemma StampOrderIsRankOrder(su: Setup, w: World, chat: string, rank: map<string, int>, x: Message, y: Message)
    requires Orderly(su, w, chat, rank) && HasRoot(su, w, chat, x) && HasRoot(su, w, chat, y)
    requires x.timestamp <= y.timestamp && x.id != y.id
    ensures Earlier(rank, x.id, y.id)
  {
    hide OnServer;
  }

  // Under the hypotheses of Delivery the received messages of every list stand
  // in the one order in which the servers got them, whatever the polls saw.
  lemma ReceivedInRankOrder(su: Setup, steps: seq<Step>, v: string, rank: map<string, int>, i: nat, j: nat)
    requires Agreed(su) && Possible(su, EMPTY_WORLD, steps) && v in After(su, EMPTY_WORLD, steps).views
    requires OrderlyRun(su, EMPTY_WORLD, steps, After(su, EMPTY_WORLD, steps).views[v].chat, rank)
    requires var ms := After(su, EMPTY_WORLD, steps).views[v].messages;
      i < j < |ms| && FromPoll(ms[i]) && FromPoll(ms[j])
    ensures var ms := After(su, EMPTY_WORLD, steps).views[v].messages; Earlier(rank, ms[i].id, ms[j].id)
  {
    var w := After(su, EMPTY_WORLD, steps);
    var view := w.views[v];
    RunKeepsSafe(su, EMPTY_WORLD, steps, v, view.chat, rank, {});
    RunRooted(su, EMPTY_WORLD, steps, v, view.chat, rank, {});
    ReceivedInStampOrder(su, steps, v);
    hide Agreed, Possible, After, OrderlyRun, Orderly, HasRoot, FromPoll, Safe;
    StampOrderIsRankOrder(su, w, view.chat, rank, view.messages[i], view.messages[j]);
  }
}
