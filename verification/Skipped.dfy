// A run in which a message is skipped for good although every server was
// reached and every piece is stored: TECHNICAL_GUIDE.md's "skipped until the
// missing server comes back online" does not hold of it.

module Skipped {
  import opened Options
  import opened Numerals
  import opened Fragments
  import opened Payload
  import opened Handlers
  import opened Wire
  import opened Protocol
  import opened Delivery
  import opened ChatRows
  import opened Loss
  import opened Revival
  import opened Example

  // The first message reaches the first server only; the second one reaches them
  // all; the client polls every server; then the sender posts all pieces of the
  // first once more, and the missing ones arrive.
  function SkipRun(v: string, s1: Step, s2: Step, t1: int, stamps2: seq<int>, stamps3: seq<int>): seq<Step>
    requires s1.StartSend? && s2.StartSend?
  {
    var poll := FullPoll(v, |stamps2|) + PostAll(s1.m, 0, stamps3);
    [Join(v, s1.chat)] + ([s1] + ([s2] + ([Post(s1.m, 0, t1)] + (PostAll(s2.m, 0, stamps2) + poll))))
  }

  // Only the first server holds a piece, and it is the message's, stamped t.
  ghost predicate OnePosted(su: Setup, w: World, chat: string, m: string, t: int) {
    && (forall j, r :: OnServer(su, w, chat, j, r) ==> j == 0 && r.messageId == m && r.timestamp == t)
    && Stored(su, w, chat, 0, m)
  }

  lemma OneRowPosted(su: Setup, w: World, w': World, chat: string, m: string, r0: Fragment)
    requires w.tables == map[] && r0.messageId == m
    requires if Stored(su, w, chat, 0, m) then SameRows(su, w, w', chat) else OneRowMore(su, w, w', chat, 0, r0)
    ensures OnePosted(su, w', chat, m, r0.timestamp)
  {
    assert forall j, r :: !OnServer(su, w, chat, j, r);
    hide OnServer;
    assert OnServer(su, w', chat, 0, r0);
  }

  lemma FirstPost(su: Setup, w: World, m: string, t: int)
    requires Agreed(su) && Inv(su, w) && Postable(su, w, m) && w.tables == map[] && 0 <= t < INT64_BOUND
    requires ServersOf(su, w.sent[m].chat) != []
    ensures Enabled(su, w, Post(m, 0, t)) && (forall v :: v in w.views ==> ViewShape(su, w.views[v]))
    ensures var w' := Do(su, w, Post(m, 0, t));
      && Inv(su, w') && w'.sent == w.sent && w'.views == w.views
      && OnePosted(su, w', w.sent[m].chat, m, t)
  {
    hide Do, Inv, Agreed, Acceptable, ServersOf, SameRows, OneRowMore, Stored, OnePosted, SplitPayload, FirstMissing;
    hide PostBody;
    PostAddsRow(su, w, m, 0, t);
    Protocol.StepKeeps(su, w, Post(m, 0, t));
    OneRowPosted(su, w, Do(su, w, Post(m, 0, t)), w.sent[m].chat, m, Piece(su, w.sent[m], m, 0).(timestamp := t));
  }

  // The second message is everywhere, stamped t2; of the first only piece 0 is stored, stamped t1.
  ghost predicate Overtaking(su: Setup, w: World, chat: string, m1: string, m2: string, t1: int, t2: int) {
    && AllPast(su, w, chat, m2, 0)
    && StoredPast(su, w, chat, 0, m2, t2 - 1)
    && Stored(su, w, chat, 0, m1)
    && (forall j, r :: OnServer(su, w, chat, j, r) && r.messageId == m1 ==> j == 0 && r.timestamp == t1)
  }

  lemma SecondOvertakes(su: Setup, w: World, w': World, chat: string, m1: string, m2: string, t1: int, stamps: seq<int>)
    requires |stamps| == |ServersOf(su, chat)| >= 2 && m1 != m2 && 0 < t1 <= stamps[0]
    requires forall j :: 0 <= j < |stamps| ==> stamps[j] > 0
    requires OnePosted(su, w, chat, m1, t1) && Arrived(su, w, w', chat, m2, 0, |stamps|, stamps)
    ensures Overtaking(su, w', chat, m1, m2, t1, stamps[0])
  {
    hide OnServer, ServersOf;
    forall j ensures !Stored(su, w, chat, j, m2) {}
    hide Stored;
    assert AllPast(su, w', chat, m2, 0) by { hide StoredPast; }
    assert Stored(su, w', chat, 0, m1) by {
      var r :| OnServer(su, w, chat, 0, r) && r.messageId == m1;
      assert OnServer(su, w', chat, 0, r);
    }
  }

  // A full poll then delivers the second message, and the first is lost.
  lemma PollLoses(su: Setup, w: World, v: string, m1: string, m2: string, t1: int, t2: int)
    requires Agreed(su) && Inv(su, w) && v in w.views && w.views[v] == View(w.views[v].chat, 0, [], None)
    requires |ServersOf(su, w.views[v].chat)| >= 2 && t1 <= t2
    requires Overtaking(su, w, w.views[v].chat, m1, m2, t1, t2)
    ensures NeverShown(su, AfterFullPoll(su, w, v), v, m1, 0) && m2 in Held(AfterFullPoll(su, w, v).views[v])
  {
    var chat := w.views[v].chat;
    FullPollExactly(su, w, v);
    hide AfterFullPoll, Inv, Agreed, OnServer, ServersOf, NeverShown;
    var r :| OnServer(su, w, chat, 0, r) && r.messageId == m1;
    var r0 :| OnServer(su, w, chat, 0, r0) && r0.messageId == m2 && r0.timestamp > t2 - 1;
    assert !StoredPast(su, w, chat, 1, m1, 0);
    assert !AllPast(su, w, chat, m1, 0);
    OvertakenIsLost(su, w, v, m1, 0, r, r0);
  }

  ghost predicate Outcome(su: Setup, w: World, v: string, m1: string, m2: string)
    requires Agreed(su) && Inv(su, w)
  {
    && v in w.views && m2 in Held(w.views[v])
    && AllStored(su, w, w.views[v].chat, m1) && NeverShown(su, w, v, m1, 0)
  }

  lemma RestArrived(su: Setup, w: World, w': World, chat: string, m: string, stamps: seq<int>)
    requires |stamps| == |ServersOf(su, chat)| && Arrived(su, w, w', chat, m, 0, |stamps|, stamps)
    ensures AllStored(su, w', chat, m) && w'.views == w.views
  {
    hide Stored, StoredPast, ServersOf, OnServer;
  }

  // The late posts complete the lost message, and it stays lost.
  lemma LatePosts(su: Setup, w: World, v: string, m1: string, m2: string, stamps: seq<int>)
    requires Agreed(su) && Inv(su, w) && v in w.views && m2 in Held(w.views[v]) && ClockReadings(stamps)
    requires Postable(su, w, m1) && w.sent[m1].chat == w.views[v].chat && |stamps| == |ServersOf(su, w.views[v].chat)|
    requires Stored(su, w, w.views[v].chat, 0, m1) && NeverShown(su, w, v, m1, 0)
    ensures var late := PostAll(m1, 0, stamps);
      Possible(su, w, late) && Outcome(su, After(su, w, late), v, m1, m2)
  {
    var late := PostAll(m1, 0, stamps);
    assert m1 in w.sent;
    hide Inv, Agreed, Possible, After, NeverShown, ServersOf, Postable, Stored, Arrived, AllStored, PostAll;
    hide RunRenews, Held;
    PostAllRuns(su, w, m1, 0, stamps);
    RestArrived(su, w, After(su, w, late), w.views[v].chat, m1, stamps);
    RetryRenewsNothing(su, w, v, m1, 0, 0, stamps);
    StillLost(su, w, late, v, m1, 0);
  }

  lemma PollThenLatePosts(su: Setup, w: World, v: string, m1: string, m2: string, t1: int, t2: int, stamps: seq<int>)
    requires Agreed(su) && Inv(su, w) && v in w.views && w.views[v] == View(w.views[v].chat, 0, [], None)
    requires |ServersOf(su, w.views[v].chat)| >= 2 && t1 <= t2 && ClockReadings(stamps)
    requires Postable(su, w, m1) && w.sent[m1].chat == w.views[v].chat && |stamps| == |ServersOf(su, w.views[v].chat)|
    requires Overtaking(su, w, w.views[v].chat, m1, m2, t1, t2)
    ensures var steps := FullPoll(v, |stamps|) + PostAll(m1, 0, stamps);
      Possible(su, w, steps) && Outcome(su, After(su, w, steps), v, m1, m2)
  {
    var chat := w.views[v].chat;
    FullPollExactly(su, w, v);
    FullPollRuns(su, w, v);
    var w6 := AfterFullPoll(su, w, v);
    assert w6 == After(su, w, FullPoll(v, |stamps|));
    assert w6.tables == w.tables && w6.sent == w.sent && w6.views[v].chat == chat;
    hide Inv, Agreed, Possible, After, AfterFullPoll, NeverShown, FullPoll, PostAll, Acceptable, ServersOf, Outcome;
    hide AllPast;
    PollLoses(su, w, v, m1, m2, t1, t2);
    assert forall r :: OnServer(su, w, chat, 0, r) ==> OnServer(su, w6, chat, 0, r);
    LatePosts(su, w6, v, m1, m2, stamps);
    RunThen(su, w, FullPoll(v, |stamps|), PostAll(m1, 0, stamps));
  }

  // For every two messages that can be posted to a chat with at least two
  // servers, this run is possible, whatever the servers' clocks say as long as
  // the first server's runs forward; after it every piece of the first message
  // is stored, nothing was lost or refused and the poll reached every server,
  // yet no run from there on shows it, unless the first server loses its piece
  // and gets it anew.
  lemma SkippedForGood(su: Setup, v: string, s1: Step, s2: Step, t1: int, stamps2: seq<int>, stamps3: seq<int>)
    requires Both(su, s1, s2) && |stamps2| == |stamps3| == |ServersOf(su, s1.chat)| >= 2
    requires ClockReadings(stamps2) && ClockReadings(stamps3) && 0 < t1 <= stamps2[0]
    requires forall j :: 0 <= j < |stamps2| ==> stamps2[j] > 0
    ensures var steps := SkipRun(v, s1, s2, t1, stamps2, stamps3);
      Possible(su, EMPTY_WORLD, steps) && Outcome(su, After(su, EMPTY_WORLD, steps), v, s1.m, s2.m)
  {
    var chat, post := s1.chat, Post(s1.m, 0, t1);
    var w3 := TwoSent(su, v, s1, s2);
    TwoSentRuns(su, v, s1, s2, []);
    assert Postable(su, w3, s1.m) && Postable(su, w3, s2.m) && w3.sent[s1.m].chat == w3.sent[s2.m].chat == chat;
    assert w3.tables == map[] && w3.views == map[v := View(chat, 0, [], None)];
    hide Inv, Agreed, Both, Good, Possible, After, ServersOf, Acceptable, TwoSent, NewSending, Do, Enabled;
    hide OnePosted, ViewShape, Arrived, Outcome;
    FirstPost(su, w3, s1.m, t1);
    var w4 := Do(su, w3, post);
    PostAllRuns(su, w4, s2.m, 0, stamps2);
    var second, last := PostAll(s2.m, 0, stamps2), FullPoll(v, |stamps2|) + PostAll(s1.m, 0, stamps3);
    var w5 := After(su, w4, second);
    SecondOvertakes(su, w4, w5, chat, s1.m, s2.m, t1, stamps2);
    PollThenLatePosts(su, w5, v, s1.m, s2.m, t1, stamps2[0], stamps3);
    RunThen(su, w4, second, last);
    RunFirst(su, w3, post, second + last);
    TwoSentRuns(su, v, s1, s2, [post] + (second + last));
  }

  // Two servers, "hello" sent at 10 to the first only, "hi" at 20 to both, a
  // full poll, and "hello" posted again to both at 30: "hello" is never shown.
  lemma HelloIsLost(v: string)
    ensures var su, steps := EXAMPLE, SkipRun(v, FIRST, SECOND, 10, [20, 20], [30, 30]);
      && Agreed(su) && Possible(su, EMPTY_WORLD, steps)
      && Outcome(su, After(su, EMPTY_WORLD, steps), v, FIRST.m, SECOND.m)
  {
    hide Agreed, Good, Possible, After, Outcome, SkipRun, ServersOf;
    ExampleBoth();
    SkippedForGood(EXAMPLE, v, FIRST, SECOND, 10, [20, 20], [30, 30]);
  }
}
