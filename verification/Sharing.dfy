// app.js: the server list of a client, and what export and import keep of it.

module Sharing {
  import opened Options

  datatype Result<+T> = Ok(value: T) | Error(message: string)

  datatype Server = Server(id: string, url: string, token: string, title: string)
  datatype Invited = Invited(url: string, token: string, title: string)
  datatype Invite = Invite(name: string, chatId: string, keyB64: string, servers: seq<Invited>)

  function FindServer(servers: seq<Server>, id: string): Option<Server> {
    if servers == [] then None
    else if servers[0].id == id then Some(servers[0])
    else FindServer(servers[1..], id)
  }

  // serverIds.map(find).filter(Boolean): a removed server shifts the positions behind it.
  function Resolve(servers: seq<Server>, ids: seq<string>): seq<Server> {
    if ids == [] then []
    else (match FindServer(servers, ids[0]) case None => [] case Some(s) => [s]) + Resolve(servers, ids[1..])
  }

  function FindEqual(servers: seq<Server>, url: string, token: string): Option<Server> {
    if servers == [] then None
    else if servers[0].url == url && servers[0].token == token then Some(servers[0])
    else FindEqual(servers[1..], url, token)
  }

  predicate EndsInSlash(url: string) { url != "" && url[|url| - 1] == '/' }

  // url.replace(/\/$/, ''): one trailing slash is dropped.
  function DropSlash(url: string): string { if EndsInSlash(url) then url[..|url| - 1] else url }

  function NewServer(id: string, url: string, token: string, title: string): Server {
    Server(id, DropSlash(url), token, if title != "" then title else url)
  }

  function ServerIds(servers: seq<Server>): set<string> { set s | s in servers :: s.id }

  ghost predicate UniqueServerIds(servers: seq<Server>) {
    forall i, j :: 0 <= i < j < |servers| ==> servers[i].id != servers[j].id
  }

  // Ids generateId has still to hand out: all different, none in use.
  ghost predicate FreshIds(servers: seq<Server>, ids: seq<string>) {
    && (forall i, j :: 0 <= i < j < |ids| ==> ids[i] != ids[j])
    && (forall i :: 0 <= i < |ids| ==> ids[i] !in ServerIds(servers))
  }

  function Exported(servers: seq<Server>, ids: seq<string>): Option<seq<Invited>> {
    if ids == [] then Some([])
    else match FindServer(servers, ids[0])
      case None => None
      case Some(s) =>
        match Exported(servers, ids[1..])
        case None => None
        case Some(rest) => Some([Invited(s.url, s.token, s.title)] + rest)
  }

  function Behind(done: seq<Invited>, rest: Option<seq<Invited>>): Option<seq<Invited>> {
    match rest
    case None => None
    case Some(r) => Some(done + r)
  }

  lemma ExportStep(servers: seq<Server>, ids: seq<string>, done: seq<Invited>)
    ensures Behind([], Exported(servers, ids)) == Exported(servers, ids)
    ensures ids == [] ==> Behind(done, Exported(servers, ids)) == Some(done)
    ensures ids != [] && FindServer(servers, ids[0]).None? ==> Exported(servers, ids) == None
    ensures ids != [] && FindServer(servers, ids[0]).Some? ==>
      var s := FindServer(servers, ids[0]).value;
      Behind(done, Exported(servers, ids)) ==
        Behind(done + [Invited(s.url, s.token, s.title)], Exported(servers, ids[1..]))
  {
    if Exported(servers, ids).Some? { assert [] + Exported(servers, ids).value == Exported(servers, ids).value; }
    assert done + [] == done;
    if ids != [] && FindServer(servers, ids[0]).Some? && Exported(servers, ids[1..]).Some? {
      var s, r := FindServer(servers, ids[0]).value, Exported(servers, ids[1..]).value;
      assert done + ([Invited(s.url, s.token, s.title)] + r) == done + [Invited(s.url, s.token, s.title)] + r;
    }
  }

  // What an import leaves: the server list, the ids it resolved so far, and
  // whether it got to the end.
  datatype Import = Import(servers: seq<Server>, serverIds: seq<string>, ok: bool)

  function Prepend(ids: seq<string>, i: Import): Import { i.(serverIds := ids + i.serverIds) }

  function Imported(servers: seq<Server>, invited: seq<Invited>, ids: seq<string>): Import
    requires |invited| <= |ids|
    decreases |invited|
  {
    if invited == [] then Import(servers, [], true)
    else
      var s := invited[0];
      match FindEqual(servers, s.url, s.token)
      case Some(e) => Prepend([e.id], Imported(servers, invited[1..], ids))
      case None =>
        if s.url == "" || s.token == "" then Import(servers, [], false)
        else
          var added := NewServer(ids[0], s.url, s.token, s.title);
          Prepend([added.id], Imported(servers + [added], invited[1..], ids[1..]))
  }

  // The import is under way: `done` are the ids already found or added.
  lemma ImportStep(servers: seq<Server>, rest: seq<Invited>, left: seq<string>, done: seq<string>)
    requires |rest| <= |left|
    ensures Prepend([], Imported(servers, rest, left)) == Imported(servers, rest, left)
    ensures Prepend(done, Imported(servers, rest, left)) ==
      if rest == [] then Import(servers, done, true)
      else
        var s := rest[0];
        match FindEqual(servers, s.url, s.token)
        case Some(e) => Prepend(done + [e.id], Imported(servers, rest[1..], left))
        case None =>
          if s.url == "" || s.token == "" then Import(servers, done, false)
          else Prepend(done + [left[0]],
                       Imported(servers + [NewServer(left[0], s.url, s.token, s.title)], rest[1..], left[1..]))
  {}

  lemma FreshStep(servers: seq<Server>, ids: seq<string>, s: Invited)
    requires ids != [] && FreshIds(servers, ids)
    ensures ids[0] !in ServerIds(servers)
    ensures FreshIds(servers + [NewServer(ids[0], s.url, s.token, s.title)], ids[1..])
  {
    var more := servers + [NewServer(ids[0], s.url, s.token, s.title)];
    assert ServerIds(more) == ServerIds(servers) + {ids[0]};
  }

  // ---- Looking servers up ----

  lemma {:induction false} FindServerMeaning(servers: seq<Server>, id: string)
    ensures FindServer(servers, id).Some? ==>
      FindServer(servers, id).value in servers && FindServer(servers, id).value.id == id
    ensures UniqueServerIds(servers) ==> forall s :: s in servers && s.id == id ==> FindServer(servers, id) == Some(s)
  {
    if servers == [] {
    } else {
      FindServerMeaning(servers[1..], id);
    }
  }

  lemma {:induction false} FindEqualMeaning(servers: seq<Server>, url: string, token: string)
    ensures FindEqual(servers, url, token).Some? ==>
      var s := FindEqual(servers, url, token).value; s in servers && s.url == url && s.token == token
    ensures FindEqual(servers, url, token).None? ==> forall s :: s in servers ==> s.url != url || s.token != token
  {
    if servers == [] {
    } else {
      FindEqualMeaning(servers[1..], url, token);
    }
  }

  // A server found stays found, at the same place, when servers are added.
  lemma {:induction false} FindEqualStable(servers: seq<Server>, more: seq<Server>, url: string, token: string)
    ensures FindEqual(servers, url, token).Some? ==>
      FindEqual(servers + more, url, token) == FindEqual(servers, url, token)
    ensures FindEqual(servers, url, token).None? ==>
      FindEqual(servers + more, url, token) == FindEqual(more, url, token)
  {
    if servers == [] {
      assert servers + more == more;
    } else {
      FindEqualStable(servers[1..], more, url, token);
      assert (servers + more)[1..] == servers[1..] + more;
    }
  }

  // Where requests to the resolved servers go: Network.request drops one
  // more trailing slash of the stored url.
  function Endpoints(servers: seq<Server>): seq<(string, string)> {
    if servers == [] then [] else [(DropSlash(servers[0].url), servers[0].token)] + Endpoints(servers[1..])
  }

  function InvitedEndpoints(invited: seq<Invited>): seq<(string, string)> {
    if invited == [] then [] else [(DropSlash(invited[0].url), invited[0].token)] + InvitedEndpoints(invited[1..])
  }

  // The export carries exactly the resolved list, in its order.
  lemma {:induction false} ExportIsResolved(servers: seq<Server>, ids: seq<string>)
    requires Exported(servers, ids).Some?
    ensures InvitedEndpoints(Exported(servers, ids).value) == Endpoints(Resolve(servers, ids))
  {
    if ids == [] {
    } else {
      ExportIsResolved(servers, ids[1..]);
      var s := FindServer(servers, ids[0]).value;
      assert Resolve(servers, ids)[1..] == Resolve(servers, ids[1..]);
      assert Exported(servers, ids).value[1..] == Exported(servers, ids[1..]).value;
    }
  }

  predicate Knows(servers: seq<Server>, s: Invited) { FindEqual(servers, s.url, s.token).Some? }

  predicate EndsInTwo(url: string) { EndsInSlash(url) && EndsInSlash(DropSlash(url)) }

  // Every invited server is known to the importer as it comes, or addressed
  // alike after it was stored: its url does not end in two slashes.
  predicate KeepsAddresses(servers: seq<Server>, invited: seq<Invited>) {
    forall s :: s in invited ==> Knows(servers, s) || !EndsInTwo(s.url)
  }

  // What the first step of an import adds and the rest of the invitation know of each other.
  lemma AddressesStep(servers: seq<Server>, invited: seq<Invited>, added: Server)
    requires invited != [] && !Knows(servers, invited[0])
    requires added.url == DropSlash(invited[0].url)
    ensures KeepsAddresses(servers, invited) <==>
      !EndsInTwo(invited[0].url) && KeepsAddresses(servers + [added], invited[1..])
  {
    assert invited == [invited[0]] + invited[1..];
    forall s
      ensures Knows(servers + [added], s) <==> Knows(servers, s) || (added.url == s.url && added.token == s.token)
    {
      KnowsMore(servers, added, s);
    }
  }

  lemma KnowsMore(servers: seq<Server>, added: Server, s: Invited)
    ensures Knows(servers + [added], s) <==> Knows(servers, s) || (added.url == s.url && added.token == s.token)
  {
    FindEqualStable(servers, [added], s.url, s.token);
    assert [added][1..] == [];
  }

  // Servers that were there stay, unchanged and in place; ids stay unique.
  lemma {:induction false} ImportExtends(servers: seq<Server>, invited: seq<Invited>, ids: seq<string>)
    requires |invited| <= |ids| && UniqueServerIds(servers) && FreshIds(servers, ids)
    ensures var i := Imported(servers, invited, ids);
      servers <= i.servers && UniqueServerIds(i.servers) && (i.ok ==> |i.serverIds| == |invited|)
    decreases |invited|
  {
    if invited == [] {
    } else {
      var s := invited[0];
      if FindEqual(servers, s.url, s.token).Some? {
        ImportExtends(servers, invited[1..], ids);
      } else if s.url != "" && s.token != "" {
        var added := NewServer(ids[0], s.url, s.token, s.title);
        FreshStep(servers, ids, s);
        forall x | x in servers ensures x.id != added.id { assert x.id in ServerIds(servers); }
        ImportExtends(servers + [added], invited[1..], ids[1..]);
      }
    }
  }

  // A completed import resolves to the invited endpoints, position by position,
  // exactly when no url unknown to the importer ends in two slashes.
  lemma {:induction false} ImportResolves(servers: seq<Server>, invited: seq<Invited>, ids: seq<string>)
    requires |invited| <= |ids| && UniqueServerIds(servers) && FreshIds(servers, ids)
    requires Imported(servers, invited, ids).ok
    ensures var i := Imported(servers, invited, ids);
      |Resolve(i.servers, i.serverIds)| == |invited| &&
      (Endpoints(Resolve(i.servers, i.serverIds)) == InvitedEndpoints(invited) <==> KeepsAddresses(servers, invited))
    decreases |invited|
  {
    if invited == [] {
    } else {
      var s, all := invited[0], Imported(servers, invited, ids);
      ImportExtends(servers, invited, ids);
      var found := FindEqual(servers, s.url, s.token);
      FindEqualMeaning(servers, s.url, s.token);
      var first;
      if found.Some? {
        first := found.value;
        assert first in all.servers;
        ImportResolves(servers, invited[1..], ids);
        assert invited == [s] + invited[1..];
      } else {
        first := NewServer(ids[0], s.url, s.token, s.title);
        FreshStep(servers, ids, s);
        forall x | x in servers ensures x.id != first.id { assert x.id in ServerIds(servers); }
        ImportExtends(servers + [first], invited[1..], ids[1..]);
        assert first in servers + [first];
        ImportResolves(servers + [first], invited[1..], ids[1..]);
        AddressesStep(servers, invited, first);
        StoredAddress(s.url);
      }
      FindServerMeaning(all.servers, first.id);
      assert all.serverIds[0] == first.id;
      var rest := Resolve(all.servers, all.serverIds[1..]);
      assert Resolve(all.servers, all.serverIds) == [first] + rest;
      EndpointsStep(first, rest);
      SameHead((DropSlash(first.url), first.token), Endpoints(rest),
               (DropSlash(s.url), s.token), InvitedEndpoints(invited[1..]));
    }
  }

  // Storing an invited url moves its address exactly when it ends in two slashes.
  lemma StoredAddress(url: string)
    ensures DropSlash(DropSlash(url)) == DropSlash(url) <==> !EndsInTwo(url)
  {
    assert EndsInTwo(url) ==> |DropSlash(DropSlash(url))| < |DropSlash(url)|;
  }

  lemma EndpointsStep(s: Server, rest: seq<Server>)
    ensures Endpoints([s] + rest) == [(DropSlash(s.url), s.token)] + Endpoints(rest)
  {
    assert ([s] + rest)[1..] == rest;
  }

  lemma SameHead<T>(x: T, xs: seq<T>, y: T, ys: seq<T>)
    ensures [x] + xs == [y] + ys <==> x == y && xs == ys
  {
    assert ([x] + xs)[0] == x && ([x] + xs)[1..] == xs;
    assert ([y] + ys)[0] == y && ([y] + ys)[1..] == ys;
  }

  predicate Addable(s: Invited) { s.url != "" && s.token != "" }

  // An import completes when it knows or can add every server.
  lemma {:induction false} ImportCompletes(servers: seq<Server>, invited: seq<Invited>, ids: seq<string>)
    requires |invited| <= |ids|
    requires forall s :: s in invited ==> Knows(servers, s) || Addable(s)
    ensures Imported(servers, invited, ids).ok
    decreases |invited|
  {
    if invited == [] {
    } else {
      var s := invited[0];
      var added := NewServer(ids[0], s.url, s.token, s.title);
      assert s in invited && forall t :: t in invited[1..] ==> t in invited;
      forall t | t in invited[1..] ensures Knows(servers + [added], t) || Addable(t) { KnowsMore(servers, added, t); }
      ImportCompletes(servers, invited[1..], ids);
      ImportCompletes(servers + [added], invited[1..], ids[1..]);
    }
  }

  // Export on one client, import on another, with urls and tokens that are not
  // empty: both address the chat's servers alike and in the same order exactly
  // when no exported url that the importer does not know ends in two slashes.
  lemma ExportImportAgree(exporter: seq<Server>, serverIds: seq<string>, importer: seq<Server>, ids: seq<string>)
    requires Exported(exporter, serverIds).Some?
    requires var invited := Exported(exporter, serverIds).value;
      |invited| <= |ids| && UniqueServerIds(importer) && FreshIds(importer, ids) &&
      forall s :: s in invited ==> Addable(s)
    ensures var invited := Exported(exporter, serverIds).value;
      var i := Imported(importer, invited, ids);
      && i.ok
      && importer <= i.servers
      && (Endpoints(Resolve(i.servers, i.serverIds)) == Endpoints(Resolve(exporter, serverIds)) <==>
        KeepsAddresses(importer, invited))
  {
    var invited := Exported(exporter, serverIds).value;
    ImportCompletes(importer, invited, ids);
    ImportExtends(importer, invited, ids);
    ImportResolves(importer, invited, ids);
    ExportIsResolved(exporter, serverIds);
  }

  // ---- The same invite again ----

  ghost predicate AllKnown(servers: seq<Server>, invited: seq<Invited>) {
    forall s :: s in invited ==> Knows(servers, s)
  }

  // An import that completes adds no server exactly when it knows them all.
  lemma {:induction false} AddsNothingExactly(servers: seq<Server>, invited: seq<Invited>, ids: seq<string>)
    requires |invited| <= |ids|
    ensures AllKnown(servers, invited) ==> Imported(servers, invited, ids).ok
    ensures Imported(servers, invited, ids).ok ==>
      (Imported(servers, invited, ids).servers == servers <==> AllKnown(servers, invited))
    ensures |Imported(servers, invited, ids).servers| >= |servers|
    decreases |invited|
  {
    if invited == [] {
    } else {
      var s := invited[0];
      assert forall t :: t in invited <==> t == s || t in invited[1..];
      assert AllKnown(servers, invited) <==> Knows(servers, s) && AllKnown(servers, invited[1..]);
      AddsNothingExactly(servers, invited[1..], ids);
      AddsNothingExactly(servers + [NewServer(ids[0], s.url, s.token, s.title)], invited[1..], ids[1..]);
    }
  }

  // Every server an import added stores the url of an invited one it did not know.
  lemma {:induction false} AddedFrom(servers: seq<Server>, invited: seq<Invited>, ids: seq<string>, x: Server)
    returns (t: Invited)
    requires |invited| <= |ids|
    requires x in Imported(servers, invited, ids).servers && x !in servers
    ensures t in invited && !Knows(servers, t) && x.url == DropSlash(t.url) && x.token == t.token
    decreases |invited|
  {
    var s := invited[0];
    var added := NewServer(ids[0], s.url, s.token, s.title);
    if Knows(servers, s) {
      t := AddedFrom(servers, invited[1..], ids, x);
    } else if x == added {
      t := s;
    } else {
      t := AddedFrom(servers + [added], invited[1..], ids[1..], x);
      KnowsMore(servers, added, t);
    }
  }

  // After an import every invited server is known whose url it stores as it is.
  lemma {:induction false} KeptIsKnown(servers: seq<Server>, invited: seq<Invited>, ids: seq<string>, s: Invited)
    requires |invited| <= |ids| && Imported(servers, invited, ids).ok
    requires Knows(servers, s) || (s in invited && !EndsInSlash(s.url))
    ensures Knows(Imported(servers, invited, ids).servers, s)
    decreases |invited|
  {
    if invited == [] {
    } else {
      var t := invited[0];
      var added := NewServer(ids[0], t.url, t.token, t.title);
      KnowsMore(servers, added, s);
      if Knows(servers, t) {
        KeptIsKnown(servers, invited[1..], ids, s);
      } else {
        KeptIsKnown(servers + [added], invited[1..], ids[1..], s);
      }
    }
  }

  function LongestUrl(invited: seq<Invited>): nat {
    if invited == [] then 0
    else if |invited[0].url| > LongestUrl(invited[1..]) then |invited[0].url| else LongestUrl(invited[1..])
  }

  lemma {:induction false} LongestIsLongest(invited: seq<Invited>, s: Invited)
    requires s in invited
    ensures |s.url| <= LongestUrl(invited)
  {
    if invited[0] == s {
    } else {
      LongestIsLongest(invited[1..], s);
    }
  }

  predicate Cut(servers: seq<Server>, invited: seq<Invited>, s: Invited) {
    s in invited && !Knows(servers, s) && EndsInSlash(s.url)
  }

  // If some url was cut, the longest cut one is not known afterwards: a server
  // stored under it would come from a longer one.
  lemma {:induction false} CutStaysUnknown(servers: seq<Server>, invited: seq<Invited>, ids: seq<string>, s: Invited)
    returns (t: Invited)
    requires |invited| <= |ids| && Cut(servers, invited, s)
    ensures t in invited && !Knows(Imported(servers, invited, ids).servers, t)
    decreases LongestUrl(invited) - |s.url|
  {
    var once := Imported(servers, invited, ids).servers;
    LongestIsLongest(invited, s);
    if !Knows(once, s) { return s; }
    FindEqualMeaning(once, s.url, s.token);
    FindEqualMeaning(servers, s.url, s.token);
    var longer := AddedFrom(servers, invited, ids, FindEqual(once, s.url, s.token).value);
    LongestIsLongest(invited, longer);
    t := CutStaysUnknown(servers, invited, ids, longer);
  }

  // A completed import knew or could add every server.
  lemma {:induction false} CompletedKnows(servers: seq<Server>, invited: seq<Invited>, ids: seq<string>, s: Invited)
    requires |invited| <= |ids| && Imported(servers, invited, ids).ok && s in invited
    ensures Knows(Imported(servers, invited, ids).servers, s) || Addable(s)
    decreases |invited|
  {
    if Knows(servers, s) {
      KeptIsKnown(servers, invited, ids, s);
    } else if invited[0] != s {
      var t := invited[0];
      if Knows(servers, t) {
        CompletedKnows(servers, invited[1..], ids, s);
      } else {
        CompletedKnows(servers + [NewServer(ids[0], t.url, t.token, t.title)], invited[1..], ids[1..], s);
      }
    }
  }

  // Importing the same invite again adds no server exactly when no invited url
  // unknown before the first import ends in a slash.
  lemma SecondImportExactly(servers: seq<Server>, invited: seq<Invited>, ids: seq<string>, ids': seq<string>)
    requires |invited| <= |ids| && |invited| <= |ids'| && Imported(servers, invited, ids).ok
    ensures var once := Imported(servers, invited, ids).servers;
      var twice := Imported(once, invited, ids');
      twice.ok && (twice.servers == once <==> forall s :: s in invited ==> !Cut(servers, invited, s))
  {
    var once := Imported(servers, invited, ids).servers;
    forall s | s in invited ensures Knows(once, s) || Addable(s) { CompletedKnows(servers, invited, ids, s); }
    ImportCompletes(once, invited, ids');
    AddsNothingExactly(once, invited, ids');
    if s :| s in invited && Cut(servers, invited, s) {
      var t := CutStaysUnknown(servers, invited, ids, s);
    } else {
      forall s | s in invited ensures Knows(once, s) { KeptIsKnown(servers, invited, ids, s); }
    }
  }

  // A url stored with two trailing slashes, as addServer stores "http://a///",
  // has another address on a client that did not have it, and every further
  // import of the invite adds a server.
  lemma TrailingSlashesDisagree(id: string, id': string, id'': string, token: string)
    requires token != ""
    ensures var exporter := [NewServer(id, "http://a///", token, "a")];
      var invited := [Invited("http://a//", token, "a")];
      var i := Imported([], invited, [id']);
      && Exported(exporter, [id]) == Some(invited) && i.ok
      && Endpoints(Resolve(exporter, [id])) == [("http://a/", token)]
      && Endpoints(Resolve(i.servers, i.serverIds)) == [("http://a", token)]
      && Imported(i.servers, invited, [id'']).servers != i.servers
  {
    OneServerExport(id, token);
    var exporter := [NewServer(id, "http://a///", token, "a")];
    var invited := [Invited("http://a//", token, "a")];
    SecondImportExactly([], invited, [id'], [id'']);
    assert Cut([], invited, invited[0]);
    assert invited[1..] == [] && [id'][1..] == [];
    var added := NewServer(id', "http://a//", token, "a");
    assert Imported([], invited, [id']) == Import([added], [id'], true);
    assert [id'][0] == id' && [added][0] == added && [added][1..] == [] && Resolve([added], []) == [];
    assert Resolve([added], [id']) == [added] + [];
    EndpointsStep(added, []);
    assert DropSlash(added.url) == "http://a";
  }

  lemma OneServerExport(id: string, token: string)
    ensures Exported([NewServer(id, "http://a///", token, "a")], [id]) == Some([Invited("http://a//", token, "a")])
    ensures Endpoints(Resolve([NewServer(id, "http://a///", token, "a")], [id])) == [("http://a/", token)]
  {
    var exporter := [NewServer(id, "http://a///", token, "a")];
    assert exporter[0].url == "http://a//" && exporter[1..] == [];
    assert FindServer(exporter, id) == Some(exporter[0]);
    var ids := [id];
    assert ids[0] == id && ids[1..] == [];
    assert Exported(exporter, ids[1..]) == Some([]);
    assert [Invited("http://a//", token, "a")] + [] == [Invited("http://a//", token, "a")];
    assert Resolve(exporter, ids) == [exporter[0]] + Resolve(exporter, ids[1..]);
    assert Resolve(exporter, ids) == [exporter[0]] + [];
    EndpointsStep(exporter[0], []);
    assert DropSlash("http://a//") == "http://a/";
  }
}
