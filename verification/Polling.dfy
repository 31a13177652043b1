// app.js pollChat on values: what one poll adds to a chat, given the fragments
// each server returned.

module Polling {
  import opened Options
  import opened Fragments
  import opened Payload
  import Store

  datatype Message = Message(id: string, chatId: string, senderHash: string, text: string, timestamp: int,
                             status: string)

  function Ids(ms: seq<Message>): set<string> { set m | m in ms :: m.id }

  // All results in the order the loops visit them.
  function Flatten(results: seq<seq<Fragment>>): seq<Fragment> {
    if results == [] then [] else Flatten(results[..|results| - 1]) + results[|results| - 1]
  }

  predicate Has(frags: seq<Fragment>, m: string) { exists f :: f in frags && f.messageId == m }

  // The first fragment of a message, whose sender and stamp the entry keeps, and
  // the last one of one server's result, whose payload the entry keeps.
  function First(frags: seq<Fragment>, m: string): Fragment
    requires Has(frags, m)
  {
    if frags[0].messageId == m then frags[0] else HasRest(frags, m); First(frags[1..], m)
  }

  lemma HasRest(frags: seq<Fragment>, m: string)
    requires Has(frags, m) && frags[0].messageId != m
    ensures Has(frags[1..], m)
  {
    var f :| f in frags && f.messageId == m;
    assert f in frags[1..];
  }

  function Last(frags: seq<Fragment>, m: string): Fragment
    requires Has(frags, m)
  {
    var n := |frags| - 1;
    if frags[n].messageId == m then frags[n] else HasFront(frags, m); Last(frags[..n], m)
  }

  lemma HasFront(frags: seq<Fragment>, m: string)
    requires Has(frags, m) && frags[|frags| - 1].messageId != m
    ensures Has(frags[..|frags| - 1], m)
  {
    var f :| f in frags && f.messageId == m;
    assert f in frags[..|frags| - 1];
  }

  // Keys of byMessage in insertion order.
  function KeyOrder(frags: seq<Fragment>): seq<string> {
    if frags == [] then []
    else
      var n := |frags| - 1;
      var keys, m := KeyOrder(frags[..n]), frags[n].messageId;
      if m in keys then keys else keys + [m]
  }

  // Every server's result has a fragment of the message.
  predicate Complete(results: seq<seq<Fragment>>, m: string) {
    forall i :: 0 <= i < |results| ==> Has(results[i], m)
  }

  function Pieces(results: seq<seq<Fragment>>, m: string): seq<string>
    requires Complete(results, m)
  {
    seq(|results|, i requires 0 <= i < |results| => Last(results[i], m).payload)
  }

  const FAILED: string := "[decryption failed]"

  // The message assembled for a complete id. `open` decrypts with the chat's key.
  function Assembled(chatId: string, results: seq<seq<Fragment>>, m: string, open: string -> Option<string>): Message
    requires results != [] && Complete(results, m)
  {
    var text := match open(JoinPayload(Pieces(results, m))) case None => FAILED case Some(t) => t;
    var f := First(results[0], m);
    Message(m, chatId, f.senderHash, text, f.timestamp, "received")
  }

  function AddedFor(chatId: string, results: seq<seq<Fragment>>, held: set<string>, open: string -> Option<string>,
                    keys: seq<string>): seq<Message>
    requires results != []
  {
    if keys == [] then []
    else
      var n := |keys| - 1;
      AddedFor(chatId, results, held, open, keys[..n]) +
        if keys[n] !in held && Complete(results, keys[n]) then [Assembled(chatId, results, keys[n], open)] else []
  }

  // The messages one poll adds, in the order it pushes them.
  function Added(chatId: string, results: seq<seq<Fragment>>, held: set<string>,
                 open: string -> Option<string>): seq<Message>
    requires results != []
  {
    AddedFor(chatId, results, held, open, KeyOrder(Flatten(results)))
  }

  // maxTimestamp after the added messages.
  function NewCursor(since: int, added: seq<Message>): int {
    if added == [] then since
    else
      var n := |added| - 1;
      var c := NewCursor(since, added[..n]);
      if added[n].timestamp > c then added[n].timestamp else c
  }

  // ---- The set specification ----

  ghost predicate DistinctIds(ms: seq<Message>) { forall i, j :: 0 <= i < j < |ms| ==> ms[i].id != ms[j].id }

  ghost predicate Distinct(keys: seq<string>) { forall i, j :: 0 <= i < j < |keys| ==> keys[i] != keys[j] }

  lemma {:induction false} KeyOrderMeaning(frags: seq<Fragment>)
    ensures Distinct(KeyOrder(frags))
    ensures forall m :: m in KeyOrder(frags) <==> Has(frags, m)
  {
    if frags == [] {
    } else {
      var n := |frags| - 1;
      KeyOrderMeaning(frags[..n]);
      forall m ensures Has(frags, m) <==> Has(frags[..n], m) || frags[n].messageId == m {
        HasAppend(frags[..n], frags[n], m);
        assert frags == frags[..n] + [frags[n]];
      }
    }
  }

  lemma HasAppend(frags: seq<Fragment>, f: Fragment, m: string)
    ensures Has(frags + [f], m) <==> Has(frags, m) || f.messageId == m
  {
    if Has(frags, m) {
      var g :| g in frags && g.messageId == m;
      assert g in frags + [f];
    }
    assert f in frags + [f];
  }

  lemma HasConcat(a: seq<Fragment>, b: seq<Fragment>, m: string)
    ensures Has(a + b, m) <==> Has(a, m) || Has(b, m)
  {
    if Has(a, m) { var g :| g in a && g.messageId == m; assert g in a + b; }
    if Has(b, m) { var g :| g in b && g.messageId == m; assert g in a + b; }
  }

  lemma {:induction false} FlattenHas(results: seq<seq<Fragment>>, m: string, i: nat)
    requires i < |results| && Has(results[i], m)
    ensures Has(Flatten(results), m)
  {
    var n := |results| - 1;
    HasConcat(Flatten(results[..n]), results[n], m);
    if i < n { FlattenHas(results[..n], m, i); }
  }

  lemma {:induction false} AddedForMeaning(chatId: string, results: seq<seq<Fragment>>, held: set<string>,
                                           open: string -> Option<string>, keys: seq<string>)
    requires results != [] && Distinct(keys)
    ensures var added := AddedFor(chatId, results, held, open, keys);
      && DistinctIds(added)
      && (forall m :: m in Ids(added) <==> m in keys && m !in held && Complete(results, m))
      && (forall x :: x in added ==> Complete(results, x.id) && x == Assembled(chatId, results, x.id, open))
  {
    if keys == [] {
    } else {
      var n := |keys| - 1;
      AddedForMeaning(chatId, results, held, open, keys[..n]);
      var before := AddedFor(chatId, results, held, open, keys[..n]);
      var after := AddedFor(chatId, results, held, open, keys);
      var adds := keys[n] !in held && Complete(results, keys[n]);
      var last := if adds then [Assembled(chatId, results, keys[n], open)] else [];
      assert after == before + last;
      assert last != [] ==> last[0].id == keys[n];
      assert forall m :: m in keys <==> m in keys[..n] || m == keys[n];
      hide Complete, Assembled, AddedFor;
      forall x | x in before ensures x.id != keys[n] {
        assert x.id in Ids(before);
      }
      assert Ids(after) == Ids(before) + Ids(last);
    }
  }

  // The messages a poll adds are exactly those not held for which every
  // server's result has a fragment, each once; stamp and sender come from the
  // first server's fragment.
  lemma AddedExactly(chatId: string, results: seq<seq<Fragment>>, held: set<string>, open: string -> Option<string>)
    requires results != []
    ensures var added := Added(chatId, results, held, open);
      && DistinctIds(added)
      && (forall m :: m in Ids(added) <==> m !in held && Complete(results, m))
      && (forall x :: x in added ==> Complete(results, x.id) && x == Assembled(chatId, results, x.id, open))
  {
    var keys := KeyOrder(Flatten(results));
    KeyOrderMeaning(Flatten(results));
    AddedForMeaning(chatId, results, held, open, keys);
    forall m | Complete(results, m) ensures m in keys {
      FlattenHas(results, m, 0);
    }
  }

  // ---- The order of what a poll adds ----

  lemma {:induction false} FirstAppend(frags: seq<Fragment>, f: Fragment, m: string)
    requires Has(frags + [f], m)
    ensures First(frags + [f], m) == if Has(frags, m) then First(frags, m) else f
  {
    var more := frags + [f];
    if frags == [] {
      assert more[0] == f;
      HasAppend(frags, f, m);
    } else if more[0].messageId == m {
      assert frags[0] in frags;
    } else {
      HasRest(more, m);
      assert more[1..] == frags[1..] + [f];
      FirstAppend(frags[1..], f, m);
      if Has(frags, m) { HasRest(frags, m); }
      if Has(frags[1..], m) { var g :| g in frags[1..] && g.messageId == m; assert g in frags; }
    }
  }

  // Keys stand in the order of their first fragments; in a result sorted by
  // time these are stamped in that order.
  lemma {:induction false} KeysAscend(frags: seq<Fragment>, p: nat, q: nat)
    requires Store.SortedByTime(frags) && p < q < |KeyOrder(frags)|
    ensures Has(frags, KeyOrder(frags)[p]) && Has(frags, KeyOrder(frags)[q])
    ensures First(frags, KeyOrder(frags)[p]).timestamp <= First(frags, KeyOrder(frags)[q]).timestamp
  {
    var n, keys := |frags| - 1, KeyOrder(frags);
    var front, f := frags[..n], frags[n];
    assert frags == front + [f];
    KeyOrderMeaning(frags);
    KeyOrderMeaning(front);
    assert keys[p] in keys && keys[q] in keys;
    hide First, Has;
    FirstAppend(front, f, keys[p]);
    FirstAppend(front, f, keys[q]);
    assert keys[p] in KeyOrder(front);
    FirstIsMember(front, keys[p]);
    if q < |KeyOrder(front)| { KeysAscend(front, p, q); }
  }

  lemma {:induction false} FirstIsMember(frags: seq<Fragment>, m: string)
    requires Has(frags, m)
    ensures First(frags, m) in frags && First(frags, m).messageId == m
  {
    if frags[0].messageId == m {
    } else {
      HasRest(frags, m);
      FirstIsMember(frags[1..], m);
    }
  }

  lemma {:induction false} KeyOrderPrefix(a: seq<Fragment>, b: seq<Fragment>)
    ensures KeyOrder(a) <= KeyOrder(a + b)
  {
    if b == [] {
      assert a + b == a;
    } else {
      var n := |b| - 1;
      assert (a + b)[..|a + b| - 1] == a + b[..n];
      KeyOrderPrefix(a, b[..n]);
    }
  }

  lemma {:induction false} FlattenPrefix(results: seq<seq<Fragment>>)
    requires results != []
    ensures results[0] <= Flatten(results)
  {
    var n := |results| - 1;
    if n == 0 {
      assert Flatten(results) == [] + results[0];
    } else {
      FlattenPrefix(results[..n]);
    }
  }

  // A message the first server returned stands among the keys where its
  // first fragment there puts it, before all messages that server did not return.
  lemma CompleteKeyAt(results: seq<seq<Fragment>>, k: nat)
    requires results != [] && k < |KeyOrder(Flatten(results))| && Has(results[0], KeyOrder(Flatten(results))[k])
    ensures KeyOrder(results[0]) <= KeyOrder(Flatten(results)) && k < |KeyOrder(results[0])|
  {
    var first, all := results[0], Flatten(results);
    FlattenPrefix(results);
    assert all == first + all[|first|..];
    KeyOrderPrefix(first, all[|first|..]);
    KeyOrderMeaning(first);
    KeyOrderMeaning(all);
    var m := KeyOrder(all)[k];
    hide KeyOrder, Has;
    var j :| 0 <= j < |KeyOrder(first)| && KeyOrder(first)[j] == m;
    assert KeyOrder(all)[j] == m;
  }

  ghost predicate Ascending(ms: seq<Message>) {
    forall i, j :: 0 <= i < j < |ms| ==> ms[i].timestamp <= ms[j].timestamp
  }

  lemma {:induction false} AddedForAscends(chatId: string, results: seq<seq<Fragment>>, held: set<string>,
                                           open: string -> Option<string>, n: nat)
    requires results != [] && Store.SortedByTime(results[0]) && n <= |KeyOrder(Flatten(results))|
    ensures Ascending(AddedFor(chatId, results, held, open, KeyOrder(Flatten(results))[..n]))
  {
    var keys := KeyOrder(Flatten(results));
    if n == 0 {
    } else {
      AddedForAscends(chatId, results, held, open, n - 1);
      var before, m := AddedFor(chatId, results, held, open, keys[..n - 1]), keys[n - 1];
      assert keys[..n][..n - 1] == keys[..n - 1];
      if Complete(results, m) {
        forall x | x in before ensures x.timestamp <= First(results[0], m).timestamp {
          EarlierAddedFirst(chatId, results, held, open, n - 1, x);
        }
      }
    }
  }

  // What was added for earlier keys is stamped no later than a complete message.
  lemma EarlierAddedFirst(chatId: string, results: seq<seq<Fragment>>, held: set<string>,
                          open: string -> Option<string>, n: nat, x: Message)
    requires results != [] && Store.SortedByTime(results[0]) && n < |KeyOrder(Flatten(results))|
    requires Complete(results, KeyOrder(Flatten(results))[n]) &&
      x in AddedFor(chatId, results, held, open, KeyOrder(Flatten(results))[..n])
    ensures x.timestamp <= First(results[0], KeyOrder(Flatten(results))[n]).timestamp
  {
    var keys := KeyOrder(Flatten(results));
    hide KeyOrder, Flatten, First, Has, AddedFor;
    KeyOrderMeaning(Flatten(results));
    AddedForMeaning(chatId, results, held, open, keys[..n]);
    assert x.id in Ids(AddedFor(chatId, results, held, open, keys[..n]));
    var p :| 0 <= p < n && keys[p] == x.id;
    CompleteKeyAt(results, n);
    KeysAscend(results[0], p, n);
  }

  // A poll adds messages in the order of the first server's stamps, when that
  // server's result is sorted, as the store sorts it.
  lemma AddedAscends(chatId: string, results: seq<seq<Fragment>>, held: set<string>, open: string -> Option<string>)
    requires results != [] && Store.SortedByTime(results[0])
    ensures Ascending(Added(chatId, results, held, open))
  {
    var keys := KeyOrder(Flatten(results));
    AddedForAscends(chatId, results, held, open, |keys|);
    assert keys[..|keys|] == keys;
  }

  // An unreachable server counts as an empty result: the poll adds nothing.
  lemma UnreachableAddsNothing(chatId: string, results: seq<seq<Fragment>>, held: set<string>,
                               open: string -> Option<string>, i: nat, since: int)
    requires i < |results| && results[i] == []
    ensures Added(chatId, results, held, open) == []
    ensures NewCursor(since, Added(chatId, results, held, open)) == since
  {
    AddedExactly(chatId, results, held, open);
    assert forall m :: !Has(results[i], m);
    assert forall m :: !Complete(results, m);
    NoIdsNoMessages(Added(chatId, results, held, open));
  }

  lemma NoIdsNoMessages(ms: seq<Message>)
    ensures Ids(ms) == {} <==> ms == []
  {
    if ms != [] { assert ms[0].id in Ids(ms); }
  }

  // The new cursor is the maximum of the old one and the added stamps.
  lemma {:induction false} CursorIsMax(since: int, added: seq<Message>)
    ensures NewCursor(since, added) >= since
    ensures forall x :: x in added ==> NewCursor(since, added) >= x.timestamp
    ensures NewCursor(since, added) == since || exists x :: x in added && x.timestamp == NewCursor(since, added)
  {
    if added == [] {
    } else {
      var n := |added| - 1;
      CursorIsMax(since, added[..n]);
      assert added == added[..n] + [added[n]];
      assert added[n] in added;
    }
  }
}
