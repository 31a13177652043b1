// What a client's unread counters mean, read off the history of its calls.

module Accounts {
  import opened Options

  datatype Event =
    | Opened(chat: Option<string>)
    | Removed(removed: string)
    | Polled(polled: string, count: nat)

  // The chat open after a history.
  function ActiveAfter(log: seq<Event>): Option<string> {
    if log == [] then None
    else
      var n := |log| - 1;
      match log[n]
      case Opened(c) => c
      case Removed(c) => if ActiveAfter(log[..n]) == Some(c) then None else ActiveAfter(log[..n])
      case Polled(_, _) => ActiveAfter(log[..n])
  }

  // How many events there are up to the last opening of the chat.
  function LastOpening(log: seq<Event>, c: string): nat {
    if log == [] then 0
    else if log[|log| - 1] == Opened(Some(c)) then |log|
    else LastOpening(log[..|log| - 1], c)
  }

  // Messages that polls added to the chat from an event on, while it was not open.
  function UnseenFrom(log: seq<Event>, c: string, from: nat): nat {
    if |log| <= from then 0
    else
      var n := |log| - 1;
      UnseenFrom(log[..n], c, from) +
        if log[n].Polled? && log[n].polled == c && ActiveAfter(log[..n]) != Some(c) then log[n].count else 0
  }

  // Messages added by polls since the chat was last opened, while it was inactive.
  function Backlog(log: seq<Event>, c: string): nat { UnseenFrom(log, c, LastOpening(log, c)) }

  lemma {:induction false} OpeningInPast(log: seq<Event>, c: string)
    ensures LastOpening(log, c) <= |log|
  {
    if log == [] {
    } else {
      OpeningInPast(log[..|log| - 1], c);
    }
  }

  // How one more event changes a backlog.
  lemma BacklogStep(log: seq<Event>, e: Event, c: string)
    ensures Backlog(log + [e], c) ==
      if e == Opened(Some(c)) then 0
      else if e.Polled? && e.polled == c && ActiveAfter(log) != Some(c) then Backlog(log, c) + e.count
      else Backlog(log, c)
    ensures ActiveAfter(log + [e]) ==
      match e
      case Opened(d) => d
      case Removed(d) => if ActiveAfter(log) == Some(d) then None else ActiveAfter(log)
      case Polled(_, _) => ActiveAfter(log)
  {
    var more := log + [e];
    assert more[..|more| - 1] == log;
    OpeningInPast(log, c);
  }

  // The open chat has nothing unread.
  lemma {:induction false} ActiveHasNoBacklog(log: seq<Event>, c: string)
    requires ActiveAfter(log) == Some(c)
    ensures Backlog(log, c) == 0
  {
    var n := |log| - 1;
    var before := log[..n];
    assert log == before + [log[n]];
    BacklogStep(before, log[n], c);
    if log[n] != Opened(Some(c)) {
      ActiveHasNoBacklog(before, c);
    }
  }
}
