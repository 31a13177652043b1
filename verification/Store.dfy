// database.cpp: the fragments table. Each statement is one atomic step on rows
// kept in rowid order; texts are bound as C strings.

module Store {
  import opened Text
  import opened Fragments

  // The WHERE clauses of the five statements.
  datatype Where =
    | ChatSince(chatId: string, since: int)
    | OfMessage(messageId: string)
    | WithId(id: string)
    | Expired(now: int)
    | Not(w: Where)

  predicate Holds(w: Where, r: Fragment) {
    match w
    case ChatSince(chatId, since) => r.chatId == chatId && r.timestamp > since
    case OfMessage(messageId) => r.messageId == messageId
    case WithId(id) => r.id == id
    case Expired(now) => r.ttl > 0 && r.timestamp + r.ttl <= now
    case Not(v) => !Holds(v, r)
  }

  function Filter(rows: seq<Fragment>, w: Where): seq<Fragment> {
    if rows == [] then []
    else
      var n := |rows| - 1;
      Filter(rows[..n], w) + (if Holds(w, rows[n]) then [rows[n]] else [])
  }

  lemma {:induction false} FilterMembers(rows: seq<Fragment>, w: Where)
    ensures forall r :: r in Filter(rows, w) <==> r in rows && Holds(w, r)
  {
    if rows == [] {
    } else {
      var n := |rows| - 1;
      FilterMembers(rows[..n], w);
      assert rows == rows[..n] + [rows[n]];
    }
  }

  lemma NotHolds(w: Where, r: Fragment)
    ensures Holds(Not(w), r) <==> !Holds(w, r)
  {}

  lemma FilterStep(rows: seq<Fragment>, w: Where)
    requires rows != []
    ensures var n := |rows| - 1;
      Filter(rows, w) == Filter(rows[..n], w) + if Holds(w, rows[n]) then [rows[n]] else []
  {}

  // Kept and dropped rows together are all rows.
  lemma {:induction false} FilterSplits(rows: seq<Fragment>, w: Where)
    ensures multiset(Filter(rows, w)) + multiset(Filter(rows, Not(w))) == multiset(rows)
    ensures |Filter(rows, w)| + |Filter(rows, Not(w))| == |rows|
  {
    if rows == [] {
    } else {
      var n := |rows| - 1;
      FilterSplits(rows[..n], w);
      FilterStep(rows, w);
      FilterStep(rows, Not(w));
      NotHolds(w, rows[n]);
      OneGoesEitherWay(rows, Filter(rows[..n], w), Filter(rows[..n], Not(w)), Holds(w, rows[n]));
    }
  }

  lemma OneGoesEitherWay(rows: seq<Fragment>, kept: seq<Fragment>, dropped: seq<Fragment>, keep: bool)
    requires rows != [] && multiset(kept) + multiset(dropped) == multiset(rows[..|rows| - 1])
    ensures var last := [rows[|rows| - 1]];
      multiset(kept + if keep then last else []) + multiset(dropped + if keep then [] else last) == multiset(rows)
  {
    assert rows == rows[..|rows| - 1] + [rows[|rows| - 1]];
  }

  // ORDER BY timestamp ASC; rows with equal stamps stay in rowid order.
  function Place(sorted: seq<Fragment>, r: Fragment): seq<Fragment> {
    if sorted == [] || sorted[|sorted| - 1].timestamp <= r.timestamp then sorted + [r]
    else Place(sorted[..|sorted| - 1], r) + [sorted[|sorted| - 1]]
  }

  function Sort(rows: seq<Fragment>): seq<Fragment> {
    if rows == [] then [] else Place(Sort(rows[..|rows| - 1]), rows[|rows| - 1])
  }

  ghost predicate SortedByTime(rows: seq<Fragment>) {
    forall i, j :: 0 <= i < j < |rows| ==> rows[i].timestamp <= rows[j].timestamp
  }

  lemma {:induction false} PlacePermutes(sorted: seq<Fragment>, r: Fragment)
    ensures multiset(Place(sorted, r)) == multiset(sorted) + multiset{r}
  {
    if sorted == [] || sorted[|sorted| - 1].timestamp <= r.timestamp {
    } else {
      var n := |sorted| - 1;
      PlacePermutes(sorted[..n], r);
      assert sorted == sorted[..n] + [sorted[n]];
    }
  }

  lemma {:induction false} PlaceSorts(sorted: seq<Fragment>, r: Fragment)
    requires SortedByTime(sorted)
    ensures SortedByTime(Place(sorted, r))
  {
    if sorted == [] || sorted[|sorted| - 1].timestamp <= r.timestamp {
    } else {
      var n := |sorted| - 1;
      var front := Place(sorted[..n], r);
      PlaceSorts(sorted[..n], r);
      PlacePermutes(sorted[..n], r);
      assert Place(sorted, r) == front + [sorted[n]];
      hide Place;
      forall i | 0 <= i < |front| ensures front[i].timestamp <= sorted[n].timestamp {
        assert front[i] in multiset(front);
        assert front[i] in multiset(sorted[..n]) || front[i] == r;
      }
    }
  }

  lemma {:induction false} SortSorts(rows: seq<Fragment>)
    ensures SortedByTime(Sort(rows)) && multiset(Sort(rows)) == multiset(rows)
  {
    if rows == [] {
    } else {
      var n := |rows| - 1;
      SortSorts(rows[..n]);
      PlaceSorts(Sort(rows[..n]), rows[n]);
      PlacePermutes(Sort(rows[..n]), rows[n]);
      assert rows == rows[..n] + [rows[n]];
    }
  }

  function Select(rows: seq<Fragment>, w: Where): seq<Fragment> { Sort(Filter(rows, w)) }

  // A query returns a timestamp-sorted permutation of the matching rows.
  lemma SelectMeaning(rows: seq<Fragment>, w: Where)
    ensures SortedByTime(Select(rows, w))
    ensures multiset(Select(rows, w)) == multiset(Filter(rows, w))
    ensures forall r :: r in Select(rows, w) <==> r in rows && Holds(w, r)
  {
    SortSorts(Filter(rows, w));
    FilterMembers(rows, w);
    forall r ensures r in Select(rows, w) <==> r in Filter(rows, w) {
      assert r in multiset(Select(rows, w)) <==> r in multiset(Filter(rows, w));
    }
  }

  predicate HasId(rows: seq<Fragment>, id: string) { exists r :: r in rows && r.id == id }

  // A fragment as bound to the INSERT: every text up to its first NUL.
  function Bound(f: Fragment): Fragment {
    Fragment(CText(f.id), CText(f.messageId), CText(f.chatId), CText(f.senderHash), CText(f.payload),
             f.timestamp, f.ttl)
  }

  // INSERT OR IGNORE on the primary key.
  function Insert(rows: seq<Fragment>, f: Fragment): seq<Fragment> {
    if HasId(rows, CText(f.id)) then rows else rows + [Bound(f)]
  }

  function Delete(rows: seq<Fragment>, id: string): seq<Fragment> { Filter(rows, Not(WithId(CText(id)))) }

  function Purge(rows: seq<Fragment>, now: int): seq<Fragment> { Filter(rows, Not(Expired(now))) }

  ghost predicate UniqueIds(rows: seq<Fragment>) {
    forall i, j :: 0 <= i < j < |rows| ==> rows[i].id != rows[j].id
  }

  lemma {:induction false} FilterUnique(rows: seq<Fragment>, w: Where)
    requires UniqueIds(rows)
    ensures UniqueIds(Filter(rows, w))
  {
    if rows == [] {
    } else {
      var n := |rows| - 1;
      FilterUnique(rows[..n], w);
      FilterMembers(rows[..n], w);
      forall i | 0 <= i < |Filter(rows[..n], w)| ensures Filter(rows[..n], w)[i].id != rows[n].id {
        assert Filter(rows[..n], w)[i] in rows[..n];
      }
    }
  }

  lemma UniqueRow(rows: seq<Fragment>, r: Fragment, r': Fragment)
    requires UniqueIds(rows) && r in rows && r' in rows && r.id == r'.id
    ensures r == r'
  {
    var i :| 0 <= i < |rows| && rows[i] == r;
    var j :| 0 <= j < |rows| && rows[j] == r';
    if i < j { assert rows[i].id != rows[j].id; }
  }

  // With unique ids a DELETE by id removes one row or none.
  lemma {:induction false} DeleteRemovesOne(rows: seq<Fragment>, id: string)
    requires UniqueIds(rows)
    ensures |Filter(rows, WithId(id))| == if HasId(rows, id) then 1 else 0
  {
    if rows == [] {
    } else {
      var n := |rows| - 1;
      DeleteRemovesOne(rows[..n], id);
      assert rows == rows[..n] + [rows[n]];
    }
  }

  class Database {
    var rows: seq<Fragment>

    ghost predicate Valid()
      reads this
    {
      UniqueIds(rows)
    }

    constructor ()
      ensures Valid() && rows == []
    {
      rows := [];
    }

    method InsertFragment(f: Fragment) returns (inserted: bool)
      requires Valid()
      modifies this
      ensures Valid() && rows == Insert(old(rows), f)
      ensures inserted <==> !HasId(old(rows), CText(f.id))
    {
      inserted := !HasId(rows, CText(f.id));
      if inserted { rows := rows + [Bound(f)]; }
    }

    // The cursor steps over the ordered result; each row is copied out.
    method Fetch(w: Where) returns (results: seq<Fragment>)
      ensures results == Select(rows, w)
    {
      var cursor := Select(rows, w);
      results := [];
      while |results| < |cursor|
        invariant |results| <= |cursor| && results == cursor[..|results|]
      {
        results := results + [cursor[|results|]];
      }
    }

    method GetFragments(chatId: string, since: int) returns (results: seq<Fragment>)
      ensures SortedByTime(results)
      ensures multiset(results) == multiset(Filter(rows, ChatSince(CText(chatId), since)))
      ensures forall r :: r in results <==> r in rows && r.chatId == CText(chatId) && r.timestamp > since
      ensures results == Select(rows, ChatSince(CText(chatId), since))
    {
      results := Fetch(ChatSince(CText(chatId), since));
      SelectMeaning(rows, ChatSince(CText(chatId), since));
    }

    method GetMessageFragments(messageId: string) returns (results: seq<Fragment>)
      ensures SortedByTime(results)
      ensures multiset(results) == multiset(Filter(rows, OfMessage(CText(messageId))))
      ensures forall r :: r in results <==> r in rows && r.messageId == CText(messageId)
      ensures results == Select(rows, OfMessage(CText(messageId)))
    {
      results := Fetch(OfMessage(CText(messageId)));
      SelectMeaning(rows, OfMessage(CText(messageId)));
    }

    method DeleteFragment(id: string) returns (deleted: bool)
      requires Valid()
      modifies this
      ensures Valid() && rows == Delete(old(rows), id)
      ensures deleted <==> HasId(old(rows), CText(id))
      ensures |rows| == |old(rows)| - if deleted then 1 else 0
    {
      DeleteRemovesOne(rows, CText(id));
      FilterSplits(rows, WithId(CText(id)));
      FilterUnique(rows, Not(WithId(CText(id))));
      deleted := HasId(rows, CText(id));
      rows := Filter(rows, Not(WithId(CText(id))));
    }

    method PurgeExpired(now: int) returns (deleted: nat)
      requires Valid()
      modifies this
      ensures Valid() && rows == Purge(old(rows), now)
      ensures forall r :: r in rows <==> r in old(rows) && !(r.ttl > 0 && r.timestamp + r.ttl <= now)
      ensures deleted == |Filter(old(rows), Expired(now))| == |old(rows)| - |rows|
    {
      FilterMembers(rows, Not(Expired(now)));
      assert forall r :: Holds(Not(Expired(now)), r) <==> !Holds(Expired(now), r);
      FilterSplits(rows, Expired(now));
      FilterUnique(rows, Not(Expired(now)));
      var kept := Filter(rows, Not(Expired(now)));
      deleted := |rows| - |kept|;
      rows := kept;
    }

    method FragmentCount() returns (count: nat)
      ensures count == |rows|
    {
      count := |rows|;
    }
  }
}
