// The hypotheses of Delivery post by post: which posts keep the chat in order.

module Timely {
  import opened Fragments
  import opened Protocol
  import opened Delivery
  import opened ChatRows

  // Piece i of the message comes in time: every earlier message has its piece
  // on server i, the first server's stamps of earlier messages lie behind, and
  // a first piece is stamped before every piece of a later message.
  ghost predicate InTime(su: Setup, w: World, chat: string, rank: map<string, int>, m: string, i: int, now: int) {
    && m in rank && now > 0
    && (forall k :: Earlier(rank, k, m) ==> Stored(su, w, chat, i, k))
    && (forall r0 :: OnServer(su, w, chat, 0, r0) && Earlier(rank, r0.messageId, m) ==> r0.timestamp < now)
    && (i == 0 ==> forall j, r :: OnServer(su, w, chat, j, r) && Earlier(rank, m, r.messageId) ==> now < r.timestamp)
  }

  // One more row keeps the chat in order exactly when it comes in time.
  lemma RowKeepsOrder(su: Setup, w: World, w': World, chat: string, rank: map<string, int>, i: nat, r0: Fragment)
    requires Orderly(su, w, chat, rank) && OneRowMore(su, w, w', chat, i, r0) && !Stored(su, w, chat, i, r0.messageId)
    ensures Orderly(su, w', chat, rank) <==> InTime(su, w, chat, rank, r0.messageId, i, r0.timestamp)
  {
    hide OnServer;
    assert OnServer(su, w', chat, i, r0);
    forall j, k ensures Stored(su, w', chat, j, k) <==> Stored(su, w, chat, j, k) || (j == i && k == r0.messageId) {
      if Stored(su, w, chat, j, k) {
        var r :| OnServer(su, w, chat, j, r) && r.messageId == k;
        assert OnServer(su, w', chat, j, r);
      }
    }
    hide Stored;
    if Orderly(su, w', chat, rank) { OrderGivesTime(su, w, w', chat, rank, i, r0); }
    if InTime(su, w, chat, rank, r0.messageId, i, r0.timestamp) { TimeGivesOrder(su, w, w', chat, rank, i, r0); }
  }

  ghost predicate OneStoredMore(su: Setup, w: World, w': World, chat: string, i: int, m: string) {
    forall j, k :: Stored(su, w', chat, j, k) <==> Stored(su, w, chat, j, k) || (j == i && k == m)
  }

  lemma OrderGivesTime(su: Setup, w: World, w': World, chat: string, rank: map<string, int>, i: nat, r0: Fragment)
    requires Orderly(su, w', chat, rank) && OneRowMore(su, w, w', chat, i, r0)
    requires OneStoredMore(su, w, w', chat, i, r0.messageId)
    ensures InTime(su, w, chat, rank, r0.messageId, i, r0.timestamp)
  {
    hide OnServer, Stored;
    assert OnServer(su, w', chat, i, r0);
  }

  lemma TimeGivesOrder(su: Setup, w: World, w': World, chat: string, rank: map<string, int>, i: nat, r0: Fragment)
    requires Orderly(su, w, chat, rank) && OneRowMore(su, w, w', chat, i, r0)
    requires OneStoredMore(su, w, w', chat, i, r0.messageId)
    requires InTime(su, w, chat, rank, r0.messageId, i, r0.timestamp)
    ensures Orderly(su, w', chat, rank)
  {
    hide OnServer, Stored;
  }

  // ---- Steps ----

  lemma OtherRows(su: Setup, w: World, step: Step, chat: string)
    requires Agreed(su) && Inv(su, w) && Enabled(su, w, step) && !step.Post? && chat in su.servers
    requires forall v :: v in w.views ==> ViewShape(su, w.views[v])
    requires Grows(su, w, Do(su, w, step), chat)
    ensures SameRows(su, w, Do(su, w, step), chat)
  {
    forall j, r | OnServer(su, Do(su, w, step), chat, j, r) ensures OnServer(su, w, chat, j, r) {
      NewRowIsPosted(su, w, step, chat, r.messageId, j, r);
    }
  }

  lemma SameRowsSameOrder(su: Setup, w: World, w': World, chat: string, rank: map<string, int>)
    requires SameRows(su, w, w', chat) && Orderly(su, w, chat, rank)
    ensures Orderly(su, w', chat, rank)
  {
    hide OnServer;
    forall j, k | Stored(su, w, chat, j, k) ensures Stored(su, w', chat, j, k) {
      var r :| OnServer(su, w, chat, j, r) && r.messageId == k;
      assert OnServer(su, w', chat, j, r);
    }
  }

  // A step that loses no row of the chat keeps it in order exactly when it adds
  // none or adds one in time.
  lemma StepKeepsOrder(su: Setup, w: World, step: Step, chat: string, rank: map<string, int>)
    requires Agreed(su) && Inv(su, w) && Enabled(su, w, step) && chat in su.servers && Orderly(su, w, chat, rank)
    requires forall v :: v in w.views ==> ViewShape(su, w.views[v])
    requires Grows(su, w, Do(su, w, step), chat)
    ensures Orderly(su, Do(su, w, step), chat, rank) <==>
      (AddsRow(su, w, step, chat) ==> InTime(su, w, chat, rank, step.m, step.i, step.now))
  {
    var next := Do(su, w, step);
    assert AddsRow(su, w, step, chat) ==> step.Post? && !Stored(su, w, chat, step.i, step.m);
    assert step.Post? ==> NewRow(su, w, step).messageId == step.m && NewRow(su, w, step).timestamp == step.now;
    hide Agreed, Inv, Do, Orderly, InTime, AddsRow, NewRow, Stored, Grows, OneRowMore, SameRows;
    if step.Post? { PostRows(su, w, step, chat); } else { OtherRows(su, w, step, chat); }
    if AddsRow(su, w, step, chat) {
      RowKeepsOrder(su, w, next, chat, rank, step.i, NewRow(su, w, step));
    } else {
      SameRowsSameOrder(su, w, next, chat, rank);
    }
  }

  // ---- Runs ----

  // A run whose posts to the chat come in time and that loses no row of it.
  ghost predicate TimelyRun(su: Setup, w: World, steps: seq<Step>, chat: string, rank: map<string, int>)
    requires Agreed(su) && Inv(su, w) && Possible(su, w, steps)
    decreases |steps|
  {
    steps == [] || (
      RunHead(su, w, steps);
      var next := Do(su, w, steps[0]);
      && Grows(su, w, next, chat)
      && (AddsRow(su, w, steps[0], chat) ==> InTime(su, w, chat, rank, steps[0].m, steps[0].i, steps[0].now))
      && TimelyRun(su, next, steps[1..], chat, rank))
  }

  // From an orderly state the orderly runs are exactly the timely ones.
  lemma {:induction false} TimelyIsOrderly(su: Setup, w: World, steps: seq<Step>, chat: string, rank: map<string, int>)
    requires Agreed(su) && Inv(su, w) && Possible(su, w, steps) && chat in su.servers && Orderly(su, w, chat, rank)
    ensures OrderlyRun(su, w, steps, chat, rank) <==> TimelyRun(su, w, steps, chat, rank)
    decreases |steps|
  {
    if steps == [] {
    } else {
      RunHead(su, w, steps);
      var next := Do(su, w, steps[0]);
      hide Agreed, Inv, Do, Orderly, InTime, AddsRow, Grows, Enabled, ViewShape;
      if Grows(su, w, next, chat) {
        StepKeepsOrder(su, w, steps[0], chat, rank);
        if Orderly(su, next, chat, rank) { TimelyIsOrderly(su, next, steps[1..], chat, rank); }
      }
    }
  }

  // Posts in time are enough: in every state of every such run the cursor is
  // below every stored piece of every message that the client was never shown.
  lemma TimelyNothingSkipped(su: Setup, steps: seq<Step>, v: string, rank: map<string, int>)
    requires Agreed(su) && Possible(su, EMPTY_WORLD, steps) && v in After(su, EMPTY_WORLD, steps).views
    requires TimelyRun(su, EMPTY_WORLD, steps, After(su, EMPTY_WORLD, steps).views[v].chat, rank)
    requires forall m, m' :: m in rank && m' in rank && rank[m] == rank[m'] ==> m == m'
    ensures Ahead(su, After(su, EMPTY_WORLD, steps), After(su, EMPTY_WORLD, steps).views[v],
      Seen(su, EMPTY_WORLD, steps, v, {}))
  {
    var view := After(su, EMPTY_WORLD, steps).views[v];
    assert ViewOk(su, After(su, EMPTY_WORLD, steps).sent, view);
    assert forall i, r :: !OnServer(su, EMPTY_WORLD, view.chat, i, r);
    assert Orderly(su, EMPTY_WORLD, view.chat, rank);
    hide Agreed, Possible, After, Inv, Orderly, OrderlyRun, TimelyRun, Ahead, Seen;
    TimelyIsOrderly(su, EMPTY_WORLD, steps, view.chat, rank);
    NothingSkipped(su, steps, v, rank);
  }
}
