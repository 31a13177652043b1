// Runs that meet the hypotheses of Delivery: messages posted one after the
// other to all servers, in any run that otherwise leaves the tables alone.

module HappyRun {
  import opened Options
  import opened Protocol
  import opened Delivery
  import opened ChatRows
  import opened Loss
  import opened Timely
  import opened Example

  // ---- Orderly runs put together ----

  lemma OrderlyFirst(su: Setup, w: World, step: Step, rest: seq<Step>, chat: string, rank: map<string, int>)
    requires Agreed(su) && Inv(su, w) && Enabled(su, w, step) && Inv(su, Do(su, w, step)) &&
      Possible(su, Do(su, w, step), rest)
    requires Orderly(su, w, chat, rank) && Grows(su, w, Do(su, w, step), chat)
    requires OrderlyRun(su, Do(su, w, step), rest, chat, rank)
    ensures Possible(su, w, [step] + rest) && OrderlyRun(su, w, [step] + rest, chat, rank)
  {
    hide Do, Inv, Agreed, Enabled, Orderly, Grows;
    RunFirst(su, w, step, rest);
    var steps := [step] + rest;
    assert steps[0] == step && steps[1..] == rest;
  }

  lemma {:induction false} OrderlyThen(su: Setup, w: World, first: seq<Step>, rest: seq<Step>, chat: string,
                                       rank: map<string, int>)
    requires Agreed(su) && Inv(su, w) && Possible(su, w, first) && Possible(su, After(su, w, first), rest)
    requires OrderlyRun(su, w, first, chat, rank) && OrderlyRun(su, After(su, w, first), rest, chat, rank)
    ensures Possible(su, w, first + rest) && OrderlyRun(su, w, first + rest, chat, rank)
    decreases |first|
  {
    hide Do, Inv, Agreed, Enabled, Orderly, Grows, ViewShape;
    if first == [] {
      assert first + rest == rest;
    } else {
      RunHead(su, w, first);
      OrderlyThen(su, Do(su, w, first[0]), first[1..], rest, chat, rank);
      OrderlyFirst(su, w, first[0], first[1..] + rest, chat, rank);
      assert first + rest == [first[0]] + (first[1..] + rest);
    }
  }

  // A step that posts, deletes and purges nothing.
  predicate Quiet(step: Step) { !step.Post? && !step.DeleteRow? && !step.PurgeRows? }

  lemma QuietStep(su: Setup, w: World, step: Step, chat: string)
    requires Agreed(su) && Inv(su, w) && Enabled(su, w, step) && Quiet(step)
    requires forall v :: v in w.views ==> ViewShape(su, w.views[v])
    ensures SameRows(su, w, Do(su, w, step), chat) && Grows(su, w, Do(su, w, step), chat)
  {
    hide Answer, AfterPoll, NewSending, Inv, Agreed;
  }

  lemma {:induction false} QuietOrderly(su: Setup, w: World, steps: seq<Step>, chat: string, rank: map<string, int>)
    requires Agreed(su) && Inv(su, w) && Possible(su, w, steps) && Orderly(su, w, chat, rank)
    requires forall k :: 0 <= k < |steps| ==> Quiet(steps[k])
    ensures OrderlyRun(su, w, steps, chat, rank) && SameRows(su, w, After(su, w, steps), chat)
    decreases |steps|
  {
    hide Do, Inv, Agreed, Enabled, Orderly, Grows, ViewShape, OnServer;
    if steps == [] {
    } else {
      RunHead(su, w, steps);
      QuietStep(su, w, steps[0], chat);
      var next := Do(su, w, steps[0]);
      SameRowsSameOrder(su, w, next, chat, rank);
      QuietOrderly(su, next, steps[1..], chat, rank);
    }
  }

  // ---- A message posted to all servers ----

  // Every earlier message is on every server, the first server's stamps of
  // earlier ones lie behind all of these, and nothing of a later one is stored.
  ghost predicate InTurn(su: Setup, w: World, chat: string, rank: map<string, int>, m: string, stamps: seq<int>) {
    && m in rank
    && (forall k :: Earlier(rank, k, m) ==> AllStored(su, w, chat, k))
    && (forall r0, j :: OnServer(su, w, chat, 0, r0) && Earlier(rank, r0.messageId, m) && 0 <= j < |stamps| ==>
      r0.timestamp < stamps[j])
    && (forall i, r :: OnServer(su, w, chat, i, r) ==> !Earlier(rank, m, r.messageId))
    && (forall j :: 0 <= j < |stamps| ==> stamps[j] > 0)
  }

  lemma InTurnIsInTime(su: Setup, w: World, chat: string, rank: map<string, int>, m: string, stamps: seq<int>, i: nat)
    requires InTurn(su, w, chat, rank, m, stamps) && i < |stamps| == |ServersOf(su, chat)|
    ensures InTime(su, w, chat, rank, m, i, stamps[i])
  {
    hide OnServer, Stored, Earlier;
  }

  lemma InTurnStays(su: Setup, w: World, w': World, chat: string, rank: map<string, int>, m: string, stamps: seq<int>)
    requires InTurn(su, w, chat, rank, m, stamps) && Grows(su, w, w', chat)
    requires forall j, r :: OnServer(su, w', chat, j, r) && r.messageId != m ==> OnServer(su, w, chat, j, r)
    ensures InTurn(su, w', chat, rank, m, stamps)
  {
    hide OnServer;
    forall k | Earlier(rank, k, m) ensures AllStored(su, w', chat, k) { StoredGrows(su, w, w', chat, k); }
  }

  lemma PostInTurn(su: Setup, w: World, m: string, k: nat, stamps: seq<int>, rank: map<string, int>)
    requires Agreed(su) && Inv(su, w) && m in w.sent && Postable(su, w, m) && ClockReadings(stamps)
    requires k < |stamps| == |ServersOf(su, w.sent[m].chat)|
    requires Orderly(su, w, w.sent[m].chat, rank) && InTurn(su, w, w.sent[m].chat, rank, m, stamps)
    ensures Enabled(su, w, Post(m, k, stamps[k])) && forall v :: v in w.views ==> ViewShape(su, w.views[v])
    ensures var chat, next := w.sent[m].chat, Do(su, w, Post(m, k, stamps[k]));
      && Inv(su, next) && next.sent == w.sent && Postable(su, next, m)
      && Grows(su, w, next, chat) && Orderly(su, next, chat, rank) && InTurn(su, next, chat, rank, m, stamps)
  {
    var chat := w.sent[m].chat;
    assert chat in su.servers by { assert SendingOk(su, m, w.sent[m]); }
    hide Do, Inv, Agreed, Orderly, InTurn, InTime, Stored, StoredPast, OnServer, AddsRow, Acceptable, SendingOk;
    PostOne(su, w, m, k, stamps);
    InTurnIsInTime(su, w, chat, rank, m, stamps, k);
    StepKeepsOrder(su, w, Post(m, k, stamps[k]), chat, rank);
    InTurnStays(su, w, Do(su, w, Post(m, k, stamps[k])), chat, rank, m, stamps);
  }

  // Posting a message in turn to all servers is an orderly run.
  lemma {:induction false} PostsOrderly(su: Setup, w: World, m: string, k: nat, stamps: seq<int>,
                                        rank: map<string, int>)
    requires Agreed(su) && Inv(su, w) && m in w.sent && Postable(su, w, m) && ClockReadings(stamps)
    requires |stamps| == |ServersOf(su, w.sent[m].chat)|
    requires Orderly(su, w, w.sent[m].chat, rank) && InTurn(su, w, w.sent[m].chat, rank, m, stamps)
    ensures Possible(su, w, PostAll(m, k, stamps)) && OrderlyRun(su, w, PostAll(m, k, stamps), w.sent[m].chat, rank)
    decreases |stamps| - k
  {
    hide Do, Inv, Agreed, Enabled, Orderly, InTurn, ViewShape, ServersOf, Acceptable, Grows;
    if k >= |stamps| {
    } else {
      PostInTurn(su, w, m, k, stamps, rank);
      var next := Do(su, w, Post(m, k, stamps[k]));
      PostsOrderly(su, next, m, k + 1, stamps, rank);
      OrderlyFirst(su, w, Post(m, k, stamps[k]), PostAll(m, k + 1, stamps), w.sent[m].chat, rank);
    }
  }

  lemma {:induction false} OrderlyEnd(su: Setup, w: World, steps: seq<Step>, chat: string, rank: map<string, int>)
    requires Agreed(su) && Inv(su, w) && Possible(su, w, steps) && OrderlyRun(su, w, steps, chat, rank)
    ensures Orderly(su, After(su, w, steps), chat, rank)
    decreases |steps|
  {
    hide Do, Inv, Agreed, Enabled, Orderly, Grows, ViewShape;
    if steps == [] {
    } else {
      RunHead(su, w, steps);
      OrderlyEnd(su, Do(su, w, steps[0]), steps[1..], chat, rank);
    }
  }

  // ---- Two messages, a failed poll, a reload, and a poll that reaches every server ----

  function FailedPoll(v: string): seq<Step> { [StartPoll(v)] + ([FailFetch(v, 0)] + ([Reload(v)] + [])) }

  // A client that holds nothing is after it as it was.
  lemma FailedPollRuns(su: Setup, w: World, v: string)
    requires Agreed(su) && Inv(su, w) && v in w.views && w.views[v] == View(w.views[v].chat, 0, [], None)
    ensures Possible(su, w, FailedPoll(v)) && After(su, w, FailedPoll(v)) == w
  {
    hide Inv, Agreed, Do, Possible, After, Enabled;
    var w1 := PollOpens(su, w, v);
    var w2 := FetchFails(su, w, w1, v);
    NoSteps(su, w);
    RunFirst(su, w2, Reload(v), []);
    RunFirst(su, w1, FailFetch(v, 0), [Reload(v)] + []);
    RunFirst(su, w, StartPoll(v), [FailFetch(v, 0)] + ([Reload(v)] + []));
  }

  lemma PollOpens(su: Setup, w: World, v: string) returns (w1: World)
    requires Agreed(su) && Inv(su, w) && v in w.views && w.views[v] == View(w.views[v].chat, 0, [], None)
    ensures Enabled(su, w, StartPoll(v)) && (forall u :: u in w.views ==> ViewShape(su, w.views[u]))
    ensures w1 == Do(su, w, StartPoll(v)) && Inv(su, w1)
    ensures w1 == w.(views := w.views[v := w1.views[v]]) && w1.views[v].chat == w.views[v].chat &&
      w1.views[v].cursor == 0
    ensures w1.views[v].messages == [] && w1.views[v].poll.Some? && Enabled(su, w1, FailFetch(v, 0))
    ensures forall u :: u in w1.views ==> ViewShape(su, w1.views[u])
  {
    assert ViewOk(su, w.sent, w.views[v]) && |ServersOf(su, w.views[v].chat)| > 0;
    hide Inv, Agreed, Answer, AfterPoll, ViewOk;
    Protocol.StepKeeps(su, w, StartPoll(v));
    w1 := Do(su, w, StartPoll(v));
    ShapesOk(su, w1);
  }

  lemma FetchFails(su: Setup, w: World, w1: World, v: string) returns (w2: World)
    requires Agreed(su) && Inv(su, w1) && v in w.views && w.views[v] == View(w.views[v].chat, 0, [], None)
    requires v in w1.views && w1 == w.(views := w.views[v := w1.views[v]])
    requires w1.views[v].chat == w.views[v].chat && w1.views[v].cursor == 0 && w1.views[v].messages == []
    requires w1.views[v].poll.Some? && Enabled(su, w1, FailFetch(v, 0))
    requires forall u :: u in w1.views ==> ViewShape(su, w1.views[u])
    ensures w2 == Do(su, w1, FailFetch(v, 0)) && Inv(su, w2) && Enabled(su, w2, Reload(v))
    ensures (forall u :: u in w2.views ==> ViewShape(su, w2.views[u])) && Do(su, w2, Reload(v)) == w
  {
    hide Inv, Agreed, Answer, AfterPoll;
    Protocol.StepKeeps(su, w1, FailFetch(v, 0));
    w2 := Do(su, w1, FailFetch(v, 0));
    ShapesOk(su, w2);
    Protocol.StepKeeps(su, w2, Reload(v));
    assert w.views[v := w1.views[v]][v := w2.views[v]][v := w.views[v]] == w.views;
  }

  function Ranks(s1: Step, s2: Step): map<string, int>
    requires s1.StartSend? && s2.StartSend?
  {
    map[s1.m := 0, s2.m := 1]
  }

  function Polls(v: string, n: nat): seq<Step> { FailedPoll(v) + FullPoll(v, n) }

  // The second message comes in turn once the first is on every server.
  lemma SecondInTurn(su: Setup, w: World, w': World, chat: string, s1: Step, s2: Step, stamps1: seq<int>,
                     stamps2: seq<int>)
    requires s1.StartSend? && s2.StartSend? && s1.m != s2.m && |stamps1| == |ServersOf(su, chat)| > 0
    requires w.tables == map[] && Arrived(su, w, w', chat, s1.m, 0, |stamps1|, stamps1)
    requires forall j :: 0 <= j < |stamps2| ==> 0 < stamps1[0] < stamps2[j]
    ensures InTurn(su, w', chat, Ranks(s1, s2), s2.m, stamps2)
  {
    assert forall j, r :: !OnServer(su, w, chat, j, r);
    hide OnServer, ServersOf;
    forall r | OnServer(su, w', chat, 0, r) ensures r.messageId == s1.m && r.timestamp <= stamps1[0] {
      assert r.timestamp > stamps1[0] ==> StoredPast(su, w', chat, 0, s1.m, stamps1[0]);
    }
  }

  lemma FirstInTurn(su: Setup, w: World, chat: string, s1: Step, s2: Step, stamps: seq<int>)
    requires s1.StartSend? && s2.StartSend? && s1.m != s2.m && w.tables == map[]
    requires forall j :: 0 <= j < |stamps| ==> stamps[j] > 0
    ensures Orderly(su, w, chat, Ranks(s1, s2)) && InTurn(su, w, chat, Ranks(s1, s2), s1.m, stamps)
  {
    assert forall j, r :: !OnServer(su, w, chat, j, r);
    hide OnServer;
  }

  // Both messages are on every server, stamped after 0.
  lemma BothPast(su: Setup, w: World, w1: World, w2: World, chat: string, m1: string, m2: string, stamps1: seq<int>,
                 stamps2: seq<int>)
    requires |stamps1| == |stamps2| == |ServersOf(su, chat)| && w.tables == map[] && m1 != m2
    requires Arrived(su, w, w1, chat, m1, 0, |stamps1|, stamps1) && Arrived(su, w1, w2, chat, m2, 0, |stamps2|, stamps2)
    requires forall j :: 0 <= j < |stamps1| ==> stamps1[j] > 0 && stamps2[j] > 0
    ensures AllPast(su, w2, chat, m1, 0) && AllPast(su, w2, chat, m2, 0)
  {
    assert forall j, r :: !OnServer(su, w, chat, j, r);
    hide OnServer, ServersOf;
    forall j | 0 <= j < |stamps1| ensures StoredPast(su, w2, chat, j, m1, 0) && StoredPast(su, w2, chat, j, m2, 0) {
      assert StoredPast(su, w1, chat, j, m1, 0);
      var r :| OnServer(su, w1, chat, j, r) && r.messageId == m1 && r.timestamp > 0;
      assert OnServer(su, w2, chat, j, r);
      assert !Stored(su, w1, chat, j, m2);
    }
  }

  // The polls after both messages were posted: orderly, and they deliver both.
  lemma PollsDeliver(su: Setup, w: World, v: string, m1: string, m2: string, rank: map<string, int>)
    requires Agreed(su) && Inv(su, w) && v in w.views && w.views[v] == View(w.views[v].chat, 0, [], None)
    requires AllPast(su, w, w.views[v].chat, m1, 0) && AllPast(su, w, w.views[v].chat, m2, 0) &&
      Orderly(su, w, w.views[v].chat, rank)
    ensures var polls := Polls(v, |ServersOf(su, w.views[v].chat)|);
      && Possible(su, w, polls) && OrderlyRun(su, w, polls, w.views[v].chat, rank)
      && {m1, m2} <= HeldAt(After(su, w, polls), v)
  {
    var n := |ServersOf(su, w.views[v].chat)|;
    hide Inv, Agreed, Possible, After, Orderly, AllPast, HeldAt, Held, ServersOf, StoredPast, OnServer, PollDone;
    hide AfterFullPoll, Quiet;
    FailedPollRuns(su, w, v);
    FullPollRuns(su, w, v);
    FullPollIs(su, w, v);
    FullPollExactly(su, w, v);
    HeldOf(AfterFullPoll(su, w, v), v);
    RunThen(su, w, FailedPoll(v), FullPoll(v, n));
    PollsQuiet(v, n);
    QuietOrderly(su, w, Polls(v, n), w.views[v].chat, rank);
  }

  lemma FullPollIs(su: Setup, w: World, v: string)
    requires Agreed(su) && Inv(su, w) && v in w.views && w.views[v].poll == None
    requires Possible(su, w, FullPoll(v, |ServersOf(su, w.views[v].chat)|))
    ensures AfterFullPoll(su, w, v) == After(su, w, FullPoll(v, |ServersOf(su, w.views[v].chat)|))
  {}

  lemma PollsQuiet(v: string, n: nat)
    ensures forall j :: 0 <= j < |Polls(v, n)| ==> Quiet(Polls(v, n)[j])
  {
    FetchesQuiet(v, 0, n);
  }

  lemma {:induction false} FetchesQuiet(v: string, k: nat, n: nat)
    ensures forall j :: 0 <= j < |Fetches(v, k, n)| ==> Quiet(Fetches(v, k, n)[j])
    decreases n - k
  {
    if k >= n {
    } else {
      FetchesQuiet(v, k + 1, n);
    }
  }

  function Posts(s1: Step, s2: Step, stamps1: seq<int>, stamps2: seq<int>): seq<Step>
    requires s1.StartSend? && s2.StartSend?
  {
    PostAll(s1.m, 0, stamps1) + PostAll(s2.m, 0, stamps2)
  }

  // What both posts leave, for a world without rows.
  lemma BothPosted(su: Setup, w: World, chat: string, s1: Step, s2: Step, stamps1: seq<int>, stamps2: seq<int>)
    requires Agreed(su) && Inv(su, w) && w.tables == map[] && s1.StartSend? && s2.StartSend? && s1.m != s2.m
    requires Postable(su, w, s1.m) && Postable(su, w, s2.m) && w.sent[s1.m].chat == w.sent[s2.m].chat == chat
    requires |stamps1| == |stamps2| == |ServersOf(su, chat)| > 0 && ClockReadings(stamps1) && ClockReadings(stamps2)
    requires forall j :: 0 <= j < |stamps1| ==> 0 < stamps1[0] < stamps2[j] && stamps1[j] > 0
    ensures var posts, rank := Posts(s1, s2, stamps1, stamps2), Ranks(s1, s2);
      && Possible(su, w, posts) && OrderlyRun(su, w, posts, chat, rank)
      && var w2 := After(su, w, posts);
         && Orderly(su, w2, chat, rank) && w2.views == w.views
         && AllPast(su, w2, chat, s1.m, 0) && AllPast(su, w2, chat, s2.m, 0)
  {
    var rank, posts1, posts2 := Ranks(s1, s2), PostAll(s1.m, 0, stamps1), PostAll(s2.m, 0, stamps2);
    hide Inv, Agreed, ServersOf, Acceptable, Orderly, InTurn, Ranks, Arrived, AllPast, PostAll, Possible, After;
    hide OrderlyRun;
    FirstInTurn(su, w, chat, s1, s2, stamps1);
    PostAllRuns(su, w, s1.m, 0, stamps1);
    PostsOrderly(su, w, s1.m, 0, stamps1, rank);
    OrderlyEnd(su, w, posts1, chat, rank);
    var w1 := After(su, w, posts1);
    SecondInTurn(su, w, w1, chat, s1, s2, stamps1, stamps2);
    ArrivedSame(su, w, w1, chat, s1.m, stamps1);
    PostAllRuns(su, w1, s2.m, 0, stamps2);
    PostsOrderly(su, w1, s2.m, 0, stamps2, rank);
    OrderlyEnd(su, w1, posts2, chat, rank);
    var w2 := After(su, w1, posts2);
    BothPast(su, w, w1, w2, chat, s1.m, s2.m, stamps1, stamps2);
    ArrivedSame(su, w1, w2, chat, s2.m, stamps2);
    RunThen(su, w, posts1, posts2);
    OrderlyThen(su, w, posts1, posts2, chat, rank);
  }

  function Sends(v: string, s1: Step, s2: Step): seq<Step>
    requires s1.StartSend? && s2.StartSend?
  {
    [Join(v, s1.chat)] + ([s1] + ([s2] + []))
  }

  // Two messages posted one after the other to all servers, and polls.
  function InTurnRun(v: string, s1: Step, s2: Step, stamps1: seq<int>, stamps2: seq<int>): seq<Step>
    requires s1.StartSend? && s2.StartSend?
  {
    Sends(v, s1, s2) + (Posts(s1, s2, stamps1, stamps2) + Polls(v, |stamps1|))
  }

  lemma BothMeans(su: Setup, s1: Step, s2: Step)
    requires Both(su, s1, s2)
    ensures Agreed(su) && Inv(su, EMPTY_WORLD) && s1.StartSend? && s2.StartSend? && s1.m != s2.m && s1.chat == s2.chat
  {}

  lemma SendsOrderly(su: Setup, v: string, s1: Step, s2: Step)
    requires Both(su, s1, s2)
    ensures var sends, w := Sends(v, s1, s2), TwoSent(su, v, s1, s2);
      && Inv(su, w) && Possible(su, EMPTY_WORLD, sends) && After(su, EMPTY_WORLD, sends) == w
      && OrderlyRun(su, EMPTY_WORLD, sends, s1.chat, Ranks(s1, s2))
  {
    hide Inv, Agreed, Both, TwoSent, Orderly, Ranks, Possible, After, OrderlyRun;
    BothMeans(su, s1, s2);
    TwoSentRuns(su, v, s1, s2, []);
    NoSteps(su, TwoSent(su, v, s1, s2));
    FirstInTurn(su, EMPTY_WORLD, s1.chat, s1, s2, []);
    assert forall k :: 0 <= k < |Sends(v, s1, s2)| ==> Quiet(Sends(v, s1, s2)[k]);
    QuietOrderly(su, EMPTY_WORLD, Sends(v, s1, s2), s1.chat, Ranks(s1, s2));
  }

  lemma TwoSentFacts(su: Setup, v: string, s1: Step, s2: Step)
    requires Both(su, s1, s2)
    ensures var w, chat := TwoSent(su, v, s1, s2), s1.chat;
      && Postable(su, w, s1.m) && Postable(su, w, s2.m) && w.sent[s1.m].chat == w.sent[s2.m].chat == chat
      && w.tables == map[] && w.views == map[v := View(chat, 0, [], None)] && ServersOf(su, chat) != []
  {
    hide Acceptable, AllSendable;
  }

  // Two messages posted one after the other to all servers, then a poll that
  // fails, a reload, and a poll that reaches every server: such a run meets the
  // hypotheses of Delivery, and the client holds both messages.
  lemma DeliveredInTurn(su: Setup, v: string, s1: Step, s2: Step, stamps1: seq<int>, stamps2: seq<int>)
    requires Both(su, s1, s2) && |stamps1| == |stamps2| == |ServersOf(su, s1.chat)|
    requires ClockReadings(stamps1) && ClockReadings(stamps2)
    requires forall j :: 0 <= j < |stamps1| ==> 0 < stamps1[0] < stamps2[j] && stamps1[j] > 0
    ensures var steps := InTurnRun(v, s1, s2, stamps1, stamps2);
      && Possible(su, EMPTY_WORLD, steps) && OrderlyRun(su, EMPTY_WORLD, steps, s1.chat, Ranks(s1, s2))
      && {s1.m, s2.m} <= HeldAt(After(su, EMPTY_WORLD, steps), v)
  {
    hide Inv, Agreed, Both, ServersOf, Postable, TwoSent, Orderly, Ranks, HeldAt, AllPast, Sends, Posts, Polls;
    hide Possible, After, OrderlyRun, ClockReadings;
    BothMeans(su, s1, s2);
    var chat, rank, w := s1.chat, Ranks(s1, s2), TwoSent(su, v, s1, s2);
    var sends, posts, polls := Sends(v, s1, s2), Posts(s1, s2, stamps1, stamps2), Polls(v, |stamps1|);
    SendsOrderly(su, v, s1, s2);
    TwoSentFacts(su, v, s1, s2);
    BothPosted(su, w, chat, s1, s2, stamps1, stamps2);
    PollsDeliver(su, After(su, w, posts), v, s1.m, s2.m, rank);
    RunThen(su, w, posts, polls);
    OrderlyThen(su, w, posts, polls, chat, rank);
    RunThen(su, EMPTY_WORLD, sends, posts + polls);
    OrderlyThen(su, EMPTY_WORLD, sends, posts + polls, chat, rank);
  }

  lemma ArrivedSame(su: Setup, w: World, w': World, chat: string, m: string, stamps: seq<int>)
    requires Arrived(su, w, w', chat, m, 0, |stamps|, stamps)
    ensures w'.sent == w.sent && w'.views == w.views
  {}

  // The concrete chat: "hello" at 10 and 11, "hi" at 20 and 21.
  lemma HelloIsDelivered(v: string)
    ensures var steps := InTurnRun(v, FIRST, SECOND, [10, 11], [20, 21]);
      && Agreed(EXAMPLE) && Possible(EXAMPLE, EMPTY_WORLD, steps)
      && OrderlyRun(EXAMPLE, EMPTY_WORLD, steps, FIRST.chat, Ranks(FIRST, SECOND))
      && {FIRST.m, SECOND.m} <= HeldAt(After(EXAMPLE, EMPTY_WORLD, steps), v)
  {
    hide Agreed, Good, Possible, After, OrderlyRun, HeldAt, InTurnRun, ServersOf;
    ExampleBoth();
    DeliveredInTurn(EXAMPLE, v, FIRST, SECOND, [10, 11], [20, 21]);
  }
}
