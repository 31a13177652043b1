// The protocol's steps are what servers do to the connections the client opens:
// from the bytes of a request to the step's effect.

module Connected {
  import opened Options
  import opened Numerals
  import opened Fragments
  import opened Wire
  import opened Store
  import opened Query
  import opened Http
  import opened Handlers
  import opened Requests
  import opened Protocol

  // A server of the setup that accepts the client's token.
  predicate Serves(su: Setup, cfg: Config, token: string) {
    cfg.maxBytes == su.maxBytes && token in cfg.tokens
  }

  lemma OutcomeIsPosted(rows: seq<Fragment>, f: Fragment, token: string, cfg: Config, now: int)
    requires Sendable(f) && token in cfg.tokens
    ensures PostOutcome(rows, f, token, cfg, now).1 == Posted(rows, PostBody(f), now, cfg.maxBytes)
  {
    hide Sendable, PostBody, Posted, HasId;
    PostArrives(rows, f, now, cfg.maxBytes);
  }

  // Whatever chunks a piece's POST arrives in, the table it leaves is the one
  // the Post step leaves.
  lemma PostStepServed(su: Setup, w: World, step: Step, token: string, hs: seq<Header>, chunks: seq<string>,
                       cfg: Config, reply: Reply, rows': seq<Fragment>)
    requires Agreed(su) && Inv(su, w) && step.Post? && Enabled(su, w, step) && Serves(su, cfg, token)
    requires var f := Piece(su, w.sent[step.m], step.m, step.i);
      && GoodHeaders(hs) && AnnouncesBody(hs, PostBody(f)) && Bears(hs, token)
      && Delivers(chunks, PrintRequest("POST", FRAGMENTS_PATH, hs, PostBody(f)))
    requires var s := ServersOf(su, w.sent[step.m].chat)[step.i];
      Answers(Rows(w, s), Arrived(chunks), cfg, step.now, reply, rows')
    ensures rows' == Rows(Do(su, w, step), ServersOf(su, w.sent[step.m].chat)[step.i])
  {
    var f := Piece(su, w.sent[step.m], step.m, step.i);
    var rows := Rows(w, ServersOf(su, w.sent[step.m].chat)[step.i]);
    assert SendingOk(su, step.m, w.sent[step.m]);
    hide Piece, Sendable, PostBody, Posted, PostOutcome, Answers, Arrived, Bears, Delivers, Inv, Agreed;
    PostRequestArrives(rows, f, token, hs, chunks, cfg, step.now, reply, rows');
    OutcomeIsPosted(rows, f, token, cfg, step.now);
  }

  // A poll of the view that still misses server i's answer.
  ghost predicate Awaits(su: Setup, w: World, v: string, i: nat) {
    && v in w.views && Bytes(w.views[v].chat) && i < |ServersOf(su, w.views[v].chat)|
    && w.views[v].poll.Some? && i < |w.views[v].poll.value.results|
    && Enabled(su, w, Fetch(v, i))
  }

  // The GET the client sends to server i for the view's poll.
  function FetchRequest(view: View, hs: seq<Header>): string
    requires Bytes(view.chat) && view.poll.Some?
  {
    PrintRequest("GET", FRAGMENTS_PATH + "?" + FragmentsQuery(view.chat, view.poll.value.since), hs, "")
  }

  // Whatever chunks a poll's GET arrives in, the rows it is answered are the
  // ones the Fetch step adds to the poll, and the table stays.
  lemma FetchStepServed(su: Setup, w: World, v: string, i: nat, token: string, hs: seq<Header>, chunks: seq<string>,
                        cfg: Config, now: int, reply: Reply, rows': seq<Fragment>)
    requires Agreed(su) && Inv(su, w) && Awaits(su, w, v, i) && Serves(su, cfg, token)
    requires GoodHeaders(hs) && Announced(hs) == None && Bears(hs, token)
    requires Delivers(chunks, FetchRequest(w.views[v], hs))
    requires Answers(Rows(w, ServersOf(su, w.views[v].chat)[i]), Arrived(chunks), cfg, now, reply, rows')
    ensures rows' == Rows(w, ServersOf(su, w.views[v].chat)[i])
    ensures forall u :: u in w.views ==> ViewShape(su, w.views[u])
    ensures reply.Listing? && Do(su, w, Fetch(v, i)) == SetView(w, v, WithResult(w.views[v], i, reply.rows))
  {
    var view := w.views[v];
    hide Do, Inv, Agreed, Answer, Fetched, Select, FragmentsQuery, Answers, Arrived, Bears, Delivers, GoodHeaders;
    hide Announced, Rows;
    PollReady(su, w, v, i);
    FetchDone(su, w, v, i);
    var rows := Rows(w, ServersOf(su, view.chat)[i]);
    FetchRequestServed(rows, view.chat, view.poll.value.since, token, hs, chunks, cfg, now, reply, rows');
    FetchReturns(rows, view.chat, view.poll.value.since);
  }

  lemma PollReady(su: Setup, w: World, v: string, i: nat)
    requires Agreed(su) && Inv(su, w) && Awaits(su, w, v, i)
    ensures (forall u :: u in w.views ==> ViewShape(su, w.views[u]))
    ensures var view := w.views[v];
      Json.Printable(view.chat) && view.chat != "" && -INT64_BOUND <= view.poll.value.since < INT64_BOUND
  {
    ShapesOk(su, w);
    assert ViewOk(su, w.sent, w.views[v]);
  }

  lemma FetchDone(su: Setup, w: World, v: string, i: nat)
    requires Agreed(su) && Awaits(su, w, v, i)
    requires forall u :: u in w.views ==> ViewShape(su, w.views[u])
    ensures var view, s := w.views[v], ServersOf(su, w.views[v].chat)[i];
      var reply := Fetched(Rows(w, s), FragmentsQuery(view.chat, view.poll.value.since));
      Do(su, w, Fetch(v, i)) == SetView(w, v, WithResult(view, i, if reply == None then [] else reply.value))
  {
    hide Agreed, Fetched, FragmentsQuery, WithResult;
  }

  // For an id that is one segment of a path the client's DELETE does what the
  // DeleteRow step does.
  lemma DeleteStepServed(su: Setup, w: World, step: Step, token: string, hs: seq<Header>, chunks: seq<string>,
                         cfg: Config, now: int, reply: Reply, rows': seq<Fragment>)
    requires Agreed(su) && Inv(su, w) && step.DeleteRow? && Serves(su, cfg, token)
    requires OneSegment(step.id) && Bytes(step.id)
    requires GoodHeaders(hs) && Announced(hs) == None && Bears(hs, token)
    requires Delivers(chunks, PrintRequest("DELETE", DeleteTarget(step.id), hs, ""))
    requires Answers(Rows(w, step.server), Arrived(chunks), cfg, now, reply, rows')
    ensures rows' == Rows(Do(su, w, step), step.server)
  {
    hide Inv, Agreed, Answers, Arrived, Bears, Delivers, DeleteTarget;
    DeleteRequestServed(Rows(w, step.server), step.id, token, hs, chunks, cfg, now, reply, rows');
    SlashFreeSplits(step.id);
  }
}
