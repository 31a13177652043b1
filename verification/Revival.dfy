// When a message is out of reach, exactly: as long as server i keeps no row of
// it past the cursor. A row past the cursor is enough to bring it back without
// touching that row: the other pieces can be deleted and posted again.

module Revival {
  import opened Options
  import opened Numerals
  import opened Fragments
  import opened Store
  import opened Handlers
  import opened Polling
  import opened Protocol
  import opened Delivery
  import opened ChatRows
  import opened Loss

  // ---- Steps that renew nothing ----

  predicate Quiet(steps: seq<Step>) { forall k :: 0 <= k < |steps| ==> !steps[k].Post? && !steps[k].FinishSend? }

  lemma {:induction false} QuietRenewsNothing(su: Setup, w: World, steps: seq<Step>, v: string, m: string, i: nat)
    requires Agreed(su) && Inv(su, w) && Possible(su, w, steps) && Quiet(steps)
    ensures !RunRenews(su, w, steps, v, m, i)
    decreases |steps|
  {
    hide Do, Inv, Agreed, Enabled, Stored, ViewShape;
    if steps == [] {
    } else {
      RunHead(su, w, steps);
      QuietRenewsNothing(su, Do(su, w, steps[0]), steps[1..], v, m, i);
    }
  }

  lemma PostKeepsStored(su: Setup, w: World, step: Step, v: string, i: nat, m: string)
    requires Agreed(su) && Inv(su, w) && Enabled(su, w, step) && step.Post? && v in w.views
    requires Stored(su, w, w.views[v].chat, i, m)
    ensures forall u :: u in w.views ==> ViewShape(su, w.views[u])
    ensures var w' := Do(su, w, step); v in w'.views && Stored(su, w', w'.views[v].chat, i, m)
  {
    hide Do, Inv, Agreed, Enabled, OnServer, AddsRow;
    ShapesOk(su, w);
    PostRows(su, w, step, w.views[v].chat);
    var chat, w' := w.views[v].chat, Do(su, w, step);
    var r :| OnServer(su, w, chat, i, r) && r.messageId == m;
    assert OnServer(su, w', chat, i, r);
  }

  // Posting all pieces again renews none that its server holds.
  lemma {:induction false} RetryRenewsNothing(su: Setup, w: World, v: string, m: string, i: nat, k: nat,
                                              stamps: seq<int>)
    requires Agreed(su) && Inv(su, w) && Possible(su, w, PostAll(m, k, stamps))
    requires k > i || (v in w.views && Stored(su, w, w.views[v].chat, i, m))
    ensures !RunRenews(su, w, PostAll(m, k, stamps), v, m, i)
    decreases |stamps| - k
  {
    hide Do, Inv, Agreed, Enabled, Stored, ViewShape;
    if k >= |stamps| {
    } else {
      var steps := PostAll(m, k, stamps);
      RunHead(su, w, steps);
      assert steps[0] == Post(m, k, stamps[k]) && steps[1..] == PostAll(m, k + 1, stamps);
      if k <= i { PostKeepsStored(su, w, steps[0], v, i, m); }
      RetryRenewsNothing(su, Do(su, w, steps[0]), v, m, i, k + 1, stamps);
    }
  }

  lemma FullPollIsQuiet(v: string, n: nat)
    ensures Quiet(FullPoll(v, n))
  {
    FetchesAreQuiet(v, 0, n);
  }

  lemma {:induction false} FetchesAreQuiet(v: string, k: nat, n: nat)
    ensures Quiet(Fetches(v, k, n))
    decreases n - k
  {
    if k >= n {
    } else {
      FetchesAreQuiet(v, k + 1, n);
    }
  }

  // ---- Deleting the other pieces ----

  function ClearOthers(su: Setup, p: Sending, m: string, i: nat, k: nat): seq<Step>
    decreases |ServersOf(su, p.chat)| - k
  {
    if k >= |ServersOf(su, p.chat)| then []
    else
      (if k == i then [] else [DeleteRow(ServersOf(su, p.chat)[k], Piece(su, p, m, k).id)]) +
      ClearOthers(su, p, m, i, k + 1)
  }

  // From w to w' the message lost its rows on the servers from k on but i, and no other row went.
  ghost predicate Cleared(su: Setup, w: World, w': World, chat: string, m: string, i: nat, k: nat) {
    && w'.sent == w.sent && w'.views == w.views
    && forall j, r :: OnServer(su, w', chat, j, r) <==>
      OnServer(su, w, chat, j, r) && !(j >= k && j != i && r.messageId == m)
  }

  // The piece's id is the id of the message's rows on the chat's servers.
  lemma IdMeansRow(su: Setup, w: World, m: string, k: nat, r: Fragment)
    requires Agreed(su) && Inv(su, w) && m in w.sent && w.sent[m].chat in su.servers &&
      k < |ServersOf(su, w.sent[m].chat)|
    requires OnServer(su, w, w.sent[m].chat, k, r)
    ensures r.id == Piece(su, w.sent[m], m, k).id <==> r.messageId == m
  {
    var chat := w.sent[m].chat;
    var s := ServersOf(su, chat)[k];
    assert TableOk(su, w.sent, s, Rows(w, s));
    if r.id == Piece(su, w.sent[m], m, k).id { IdOfPiece(su, w, m, k, r); }
    if r.messageId == m {
      RowIsPiece(su, w.sent, chat, k, r);
      PieceId(su, w.sent[m], m, k, r.timestamp);
    }
  }

  lemma DeletedRow(w: World, s: string, id: string, s': string, r: Fragment)
    requires Text.CText(id) == id
    ensures r in Rows(SetRows(w, s, Delete(Rows(w, s), id)), s') <==> r in Rows(w, s') && !(s' == s && r.id == id)
  {
    FilterMembers(Rows(w, s), Not(WithId(id)));
    NotHolds(WithId(id), r);
  }

  lemma DeleteEffect(su: Setup, w: World, s: string, id: string)
    requires Agreed(su) && Inv(su, w)
    ensures forall u :: u in w.views ==> ViewShape(su, w.views[u])
    ensures Enabled(su, w, DeleteRow(s, id))
    ensures var w' := Do(su, w, DeleteRow(s, id)); Inv(su, w') && w' == SetRows(w, s, Delete(Rows(w, s), id))
  {
    ShapesOk(su, w);
    Protocol.StepKeeps(su, w, DeleteRow(s, id));
  }

  lemma PieceIsBound(su: Setup, w: World, m: string, k: nat)
    requires Agreed(su) && Inv(su, w) && m in w.sent && k < |ServersOf(su, w.sent[m].chat)|
    ensures var p := w.sent[m];
      p.chat in su.servers && Distinct(ServersOf(su, p.chat)) &&
        Text.CText(Piece(su, p, m, k).id) == Piece(su, p, m, k).id
  {
    var p := w.sent[m];
    assert SendingOk(su, m, p);
    assert Sendable(Piece(su, p, m, k));
    PrintableIsNulFree(Piece(su, p, m, k).id);
  }

  // From w to w' the message lost its row on server k, and no other row went.
  ghost predicate Gone(su: Setup, w: World, w': World, chat: string, m: string, k: nat) {
    && w'.sent == w.sent && w'.views == w.views
    && forall j, r :: OnServer(su, w', chat, j, r) <==> OnServer(su, w, chat, j, r) && !(j == k && r.messageId == m)
  }

  lemma {:induction false} ClearIsQuiet(su: Setup, p: Sending, m: string, i: nat, k: nat)
    ensures Quiet(ClearOthers(su, p, m, i, k))
    decreases |ServersOf(su, p.chat)| - k
  {
    if k >= |ServersOf(su, p.chat)| {
    } else {
      ClearIsQuiet(su, p, m, i, k + 1);
    }
  }

  // Deleting piece k from its server.
  lemma ClearOne(su: Setup, w: World, m: string, k: nat, step: Step)
    requires Agreed(su) && Inv(su, w) && m in w.sent && k < |ServersOf(su, w.sent[m].chat)|
    requires step.DeleteRow? && step == DeleteRow(ServersOf(su, w.sent[m].chat)[k], Piece(su, w.sent[m], m, k).id)
    ensures forall u :: u in w.views ==> ViewShape(su, w.views[u])
    ensures var w' := Do(su, w, step); Inv(su, w') && w'.sent == w.sent && Gone(su, w, w', w.sent[m].chat, m, k)
  {
    hide Inv, Agreed, Piece, Do, Rows, Delete, ViewShape;
    var p := w.sent[m];
    var chat, id, s := p.chat, step.id, step.server;
    PieceIsBound(su, w, m, k);
    DeleteEffect(su, w, s, id);
    var w' := Do(su, w, DeleteRow(s, id));
    forall j, r ensures OnServer(su, w', chat, j, r) <==> OnServer(su, w, chat, j, r) && !(j == k && r.messageId == m) {
      if 0 <= j < |ServersOf(su, chat)| { DeletedRow(w, s, id, ServersOf(su, chat)[j], r); }
      if OnServer(su, w, chat, j, r) {
        if j == k { IdMeansRow(su, w, m, k, r); }
        assert j != k ==> ServersOf(su, chat)[j] != s;
      }
    }
  }

  lemma ClearStep(su: Setup, w: World, w1: World, w2: World, chat: string, m: string, i: nat, k: nat)
    requires Cleared(su, w1, w2, chat, m, i, k + 1) && if k == i then w1 == w else Gone(su, w, w1, chat, m, k)
    ensures Cleared(su, w, w2, chat, m, i, k)
  {
    hide OnServer;
  }

  lemma NothingToClear(su: Setup, w: World, chat: string, m: string, i: nat, k: nat)
    requires k >= |ServersOf(su, chat)|
    ensures Cleared(su, w, w, chat, m, i, k)
  {}

  lemma {:induction false} ClearRuns(su: Setup, w: World, m: string, i: nat, k: nat)
    requires Agreed(su) && Inv(su, w) && m in w.sent
    ensures var steps, chat := ClearOthers(su, w.sent[m], m, i, k), w.sent[m].chat;
      Possible(su, w, steps) && Cleared(su, w, After(su, w, steps), chat, m, i, k)
    decreases |ServersOf(su, w.sent[m].chat)| - k
  {
    hide Inv, Agreed, Do, OnServer, Cleared, Gone, ViewShape, Piece;
    var p := w.sent[m];
    if k >= |ServersOf(su, p.chat)| {
      NothingToClear(su, w, p.chat, m, i, k);
    } else if k == i {
      ClearRuns(su, w, m, i, k + 1);
      var rest := ClearOthers(su, p, m, i, k + 1);
      assert ClearOthers(su, p, m, i, k) == [] + rest == rest;
      ClearStep(su, w, w, After(su, w, rest), p.chat, m, i, k);
    } else {
      var step := DeleteRow(ServersOf(su, p.chat)[k], Piece(su, p, m, k).id);
      ClearOne(su, w, m, k, step);
      var w1 := Do(su, w, step);
      ClearRuns(su, w1, m, i, k + 1);
      var rest := ClearOthers(su, p, m, i, k + 1);
      RunFirst(su, w, step, rest);
      ClearStep(su, w, w1, After(su, w1, rest), p.chat, m, i, k);
    }
  }

  // ---- Bringing the message back ----

  // Delete the other pieces, post all of them again, and poll every server.
  lemma BroughtBack(su: Setup, w: World, v: string, m: string, i: nat, r: Fragment)
    returns (w1: World, stamps: seq<int>)
    requires Agreed(su) && Inv(su, w) && v in w.views && w.views[v].poll == None && m !in Held(w.views[v])
    requires Postable(su, w, m) && w.sent[m].chat == w.views[v].chat && w.views[v].chat in su.servers
    requires OnServer(su, w, w.views[v].chat, i, r) && r.messageId == m && r.timestamp > w.views[v].cursor
    ensures Possible(su, w, ClearOthers(su, w.sent[m], m, i, 0)) &&
      w1 == After(su, w, ClearOthers(su, w.sent[m], m, i, 0))
    ensures v in w1.views && Stored(su, w1, w1.views[v].chat, i, m)
    ensures var late := PostAll(m, 0, stamps) + FullPoll(v, |stamps|);
      Possible(su, w1, late) && v in After(su, w1, late).views && m in Held(After(su, w1, late).views[v])
  {
    hide Inv, Agreed, OnServer, ServersOf, Possible, After, ClearOthers, PostAll, FullPoll, Acceptable, Quiet;
    hide Stored, AllAfter;
    stamps := seq(|ServersOf(su, w.views[v].chat)|, _ => r.timestamp);
    ClearRuns(su, w, m, i, 0);
    RowInRange(su, w, w.views[v].chat, i, r);
    w1 := After(su, w, ClearOthers(su, w.sent[m], m, i, 0));
    OneRowLeft(su, w, w1, w.views[v], m, i, r, stamps);
    LateDelivery(su, w1, v, m, stamps);
  }

  lemma Revived(su: Setup, w: World, v: string, m: string, i: nat, r: Fragment)
    requires m in w.sent
    requires Agreed(su) && Inv(su, w) && v in w.views && w.views[v].poll == None && m !in Held(w.views[v])
    requires Postable(su, w, m) && w.sent[m].chat == w.views[v].chat && w.views[v].chat in su.servers
    requires OnServer(su, w, w.views[v].chat, i, r) && r.messageId == m && r.timestamp > w.views[v].cursor
    ensures !NeverShown(su, w, v, m, i)
  {
    hide Inv, Agreed, OnServer, ServersOf, Possible, After, NeverShown, ClearOthers, PostAll, FullPoll, RunRenews;
    hide Quiet, Stored, Postable;
    var w1, stamps := BroughtBack(su, w, v, m, i, r);
    var clear, late := ClearOthers(su, w.sent[m], m, i, 0), PostAll(m, 0, stamps) + FullPoll(v, |stamps|);
    NothingRenewed(su, w1, v, m, i, stamps);
    ClearIsQuiet(su, w.sent[m], m, i, 0);
    QuietRenewsNothing(su, w, clear, v, m, i);
    RunThen(su, w, clear, late);
    RenewsThen(su, w, clear, late, v, m, i);
    ShownByRun(su, w, clear + late, v, m, i);
  }

  lemma RowInRange(su: Setup, w: World, chat: string, i: nat, r: Fragment)
    requires Agreed(su) && Inv(su, w) && OnServer(su, w, chat, i, r)
    ensures 0 <= r.timestamp < INT64_BOUND && i < |ServersOf(su, chat)|
  {
    var s := ServersOf(su, chat)[i];
    assert TableOk(su, w.sent, s, Rows(w, s));
    assert RowOk(su, w.sent, s, r);
  }

  // The row kept and the new stamps all lie after the cursor.
  lemma OneRowLeft(su: Setup, w: World, w1: World, view: View, m: string, i: nat, r: Fragment, stamps: seq<int>)
    requires Agreed(su) && Inv(su, w) && view.chat in su.servers && |stamps| == |ServersOf(su, view.chat)|
    requires Cleared(su, w, w1, view.chat, m, i, 0)
    requires OnServer(su, w, view.chat, i, r) && r.messageId == m && r.timestamp > view.cursor
    requires forall j :: 0 <= j < |stamps| ==> stamps[j] == r.timestamp
    ensures AllAfter(su, w1, view, m, stamps) && Stored(su, w1, view.chat, i, m)
  {
    hide Inv, Agreed, ServersOf;
    forall j, r' | OnServer(su, w1, view.chat, j, r') && r'.messageId == m ensures r'.timestamp > view.cursor {
      OneRow(su, w, view.chat, i, r, r');
    }
    assert OnServer(su, w1, view.chat, i, r);
  }

  lemma NothingRenewed(su: Setup, w: World, v: string, m: string, i: nat, stamps: seq<int>)
    requires Agreed(su) && Inv(su, w) && v in w.views && Stored(su, w, w.views[v].chat, i, m)
    requires Possible(su, w, PostAll(m, 0, stamps) + FullPoll(v, |stamps|))
    ensures !RunRenews(su, w, PostAll(m, 0, stamps) + FullPoll(v, |stamps|), v, m, i)
  {
    hide Inv, Agreed, Possible, After, PostAll, FullPoll, RunRenews, Quiet, Stored;
    var posts, poll := PostAll(m, 0, stamps), FullPoll(v, |stamps|);
    SplitRun(su, w, posts, poll);
    RetryRenewsNothing(su, w, v, m, i, 0, stamps);
    FullPollIsQuiet(v, |stamps|);
    QuietRenewsNothing(su, After(su, w, posts), poll, v, m, i);
    RenewsThen(su, w, posts, poll, v, m, i);
  }

  lemma {:induction false} SplitRun(su: Setup, w: World, first: seq<Step>, rest: seq<Step>)
    requires Agreed(su) && Inv(su, w) && Possible(su, w, first + rest)
    ensures Possible(su, w, first) && Possible(su, After(su, w, first), rest)
    decreases |first|
  {
    hide Do, Enabled, Inv, Agreed, ViewShape;
    if first == [] {
      assert first + rest == rest;
    } else {
      RunHead(su, w, first + rest);
      assert (first + rest)[0] == first[0] && (first + rest)[1..] == first[1..] + rest;
      SplitRun(su, Do(su, w, first[0]), first[1..], rest);
      RunFirst(su, w, first[0], first[1..]);
      assert first == [first[0]] + first[1..];
    }
  }

  lemma ShownByRun(su: Setup, w: World, steps: seq<Step>, v: string, m: string, i: nat)
    requires Agreed(su) && Inv(su, w) && Possible(su, w, steps) && !RunRenews(su, w, steps, v, m, i)
    requires v in After(su, w, steps).views && m in Held(After(su, w, steps).views[v])
    ensures !NeverShown(su, w, v, m, i)
  {
    hide Inv, Agreed, Possible, After, RunRenews;
  }

  lemma ReloadKeepsRow(su: Setup, w: World, v: string, i: nat, r: Fragment)
    requires Agreed(su) && Inv(su, w) && v in w.views && OnServer(su, w, w.views[v].chat, i, r)
    ensures Enabled(su, w, Reload(v)) && (forall u :: u in w.views ==> ViewShape(su, w.views[u])) &&
      w.views[v].chat in su.servers
    ensures var w1 := Do(su, w, Reload(v));
      Inv(su, w1) && w1 == SetView(w, v, w.views[v].(messages := [], poll := None)) &&
        OnServer(su, w1, w.views[v].chat, i, r)
  {
    hide Inv, Agreed, Do, Enabled, ViewShape;
    ReloadEffect(su, w, v);
  }

  // A page reload leaves an idle client with nothing and the same cursor.
  lemma RevivedAfterReload(su: Setup, w: World, v: string, m: string, i: nat, r: Fragment)
    requires Agreed(su) && Inv(su, w) && v in w.views
    requires Postable(su, w, m) && w.sent[m].chat == w.views[v].chat
    requires OnServer(su, w, w.views[v].chat, i, r) && r.messageId == m && r.timestamp > w.views[v].cursor
    ensures !NeverShown(su, w, v, m, i)
  {
    hide Inv, Agreed, Do, Enabled, ViewShape, OnServer, NeverShown, Possible, After, RunRenews, Acceptable;
    ReloadKeepsRow(su, w, v, i, r);
    var w1 := Do(su, w, Reload(v));
    Revived(su, w1, v, m, i, r);
    NoSteps(su, w1);
    RunFirst(su, w, Reload(v), []);
    var steps := [Reload(v)] + [];
    QuietRenewsNothing(su, w, steps, v, m, i);
    if NeverShown(su, w, v, m, i) { StillLost(su, w, steps, v, m, i); }
  }

  // For a message that its servers accept and that no answer of server i to a
  // poll in flight holds: no run that leaves piece i alone ever shows it exactly
  // when the client does not hold it and server i has no row of it past the cursor.
  lemma NeverShownExactly(su: Setup, w: World, v: string, m: string, i: nat)
    requires Agreed(su) && Inv(su, w) && v in w.views && Postable(su, w, m) && w.sent[m].chat == w.views[v].chat
    requires var view := w.views[v];
      && i < |ServersOf(su, view.chat)|
      && (view.poll.Some? && i < |view.poll.value.results| && view.poll.value.results[i].Some? ==>
            !Has(view.poll.value.results[i].value, m))
    ensures NeverShown(su, w, v, m, i) <==>
      m !in Held(w.views[v]) && NonePast(su, w, w.views[v].chat, m, i, w.views[v].cursor)
  {
    var view := w.views[v];
    hide Inv, Agreed, OnServer, NeverShown, Acceptable, Has;
    if m in Held(view) {
      NoSteps(su, w);
      assert !RunRenews(su, w, [], v, m, i);
      ShownByRun(su, w, [], v, m, i);
    } else if NonePast(su, w, view.chat, m, i, view.cursor) {
      BarredNeverShown(su, w, v, m, i);
    } else {
      var r :| OnServer(su, w, view.chat, i, r) && r.messageId == m && r.timestamp > view.cursor;
      RevivedAfterReload(su, w, v, m, i, r);
    }
  }
}
