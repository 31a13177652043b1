// Fragments as JSON text: what the server prints, what the client posts, and
// what the POST handler reads back from either.

module Fragments {
  datatype Fragment = Fragment(id: string, messageId: string, chatId: string, senderHash: string,
                               payload: string, timestamp: int, ttl: int)
}

module Wire {
  import opened Options
  import opened Text
  import opened Numerals
  import opened Json
  import opened Fragments

  function StringMembers(f: Fragment): seq<Member> {
    [Member("id", f.id), Member("message_id", f.messageId), Member("chat_id", f.chatId),
     Member("sender_hash", f.senderHash), Member("payload", f.payload)]
  }

  function TimestampLead(f: Fragment): string { Quoted("timestamp") + (":" + (IntText(f.timestamp) + ",")) }

  function TtlMember(f: Fragment): string { Quoted("ttl") + (":" + (IntText(f.ttl) + "}")) }

  // json_build::fragment_to_json
  function FragmentJson(f: Fragment): string {
    "{" + (Members(StringMembers(f)) + (TimestampLead(f) + TtlMember(f)))
  }

  // The body sendMessage posts: the same strings and the ttl, no timestamp.
  // JSON.stringify and json_escape agree on printable text.
  function PostBody(f: Fragment): string {
    "{" + (Members(StringMembers(f)) + TtlMember(f))
  }

  // json_build::fragments_array
  method FragmentsArray(frags: seq<Fragment>) returns (out: string)
    ensures out == "[" + Commas(frags) + "]"
  {
    hide FragmentJson;
    out := "[";
    var i := 0;
    while i < |frags|
      invariant 0 <= i <= |frags|
      invariant out == "[" + Commas(frags[..i])
    {
      assert frags[..i + 1][..i] == frags[..i];
      if i > 0 { out := out + ","; }
      out := out + FragmentJson(frags[i]);
      i := i + 1;
    }
    assert frags[..i] == frags;
    out := out + "]";
  }

  function Commas(frags: seq<Fragment>): string {
    if frags == [] then ""
    else var n := |frags| - 1;
      Commas(frags[..n]) + (if n > 0 then "," else "") + FragmentJson(frags[n])
  }

  // The fields the POST handler extracts from a body, in its order.
  method ReadFragment(body: string) returns (f: Fragment)
    ensures f == Fragment(StringAt(body, "id"), StringAt(body, "message_id"), StringAt(body, "chat_id"),
                          StringAt(body, "sender_hash"), StringAt(body, "payload"), 0, IntAt(body, "ttl", 0))
  {
    var id := ExtractString(body, "id");
    var messageId := ExtractString(body, "message_id");
    var chatId := ExtractString(body, "chat_id");
    var senderHash := ExtractString(body, "sender_hash");
    var payload := ExtractString(body, "payload");
    var ttl := ExtractInt(body, "ttl", 0);
    f := Fragment(id, messageId, chatId, senderHash, payload, 0, ttl);
  }

  function BodyFragment(body: string): Fragment {
    Fragment(StringAt(body, "id"), StringAt(body, "message_id"), StringAt(body, "chat_id"),
             StringAt(body, "sender_hash"), StringAt(body, "payload"), 0, IntAt(body, "ttl", 0))
  }

  predicate AllPrintable(f: Fragment) {
    Printable(f.id) && Printable(f.messageId) && Printable(f.chatId) && Printable(f.senderHash) && Printable(f.payload)
  }

  // The value each key's search reaches is the value wanted.
  predicate StringsReached(f: Fragment) {
    var ms := StringMembers(f);
    forall m :: m in ms ==> Reached(ms, m.key) == Some(m.value)
  }

  // No value is mistaken for a key other than the one right behind it.
  predicate Unshadowed(f: Fragment) {
    && !Shadows(f.id, "chat_id") && !Shadows(f.id, "sender_hash") && !Shadows(f.id, "payload") && !Shadows(f.id, "ttl")
    && !Shadows(f.messageId, "sender_hash") && !Shadows(f.messageId, "payload") && !Shadows(f.messageId, "ttl")
    && !Shadows(f.chatId, "payload") && !Shadows(f.chatId, "ttl")
    && !Shadows(f.senderHash, "ttl")
  }

  lemma KeysAreGood(f: Fragment)
    ensures GoodKeys(StringMembers(f)) && GoodKey("ttl") && GoodKey("timestamp")
    ensures forall m :: m in StringMembers(f) ==> m.key != "ttl"
  {
    ShortKeys();
    LongKeys();
    hide GoodKey;
  }

  lemma ShortKeys()
    ensures GoodKey("id") && GoodKey("payload") && GoodKey("ttl") && GoodKey("chat_id")
  {}

  lemma LongKeys()
    ensures GoodKey("message_id") && GoodKey("sender_hash") && GoodKey("timestamp")
  {}

  lemma {:induction false} HasKeyOf(ms: seq<Member>, m: Member)
    requires m in ms
    ensures HasKey(ms, m.key)
  {
    if ms[0] == m {
    } else {
      HasKeyOf(ms[1..], m);
    }
  }

  lemma {:induction false} RereadIsPrintable(s: string)
    ensures Printable(Reread(s))
  {
    if s == "" {
    } else {
      RereadIsPrintable(s[1..]);
    }
  }

  // Each string is read back exactly when it is printable and its search is not misled.
  lemma StringsExact(f: Fragment, tail: string)
    ensures var body := "{" + (Members(StringMembers(f)) + tail);
      (forall m :: m in StringMembers(f) ==> StringAt(body, m.key) == m.value) <==>
      AllPrintable(f) && StringsReached(f)
  {
    var ms := StringMembers(f);
    var body := "{" + (Members(ms) + tail);
    KeysAreGood(f);
    forall m | m in ms
      ensures Reached(ms, m.key).Some? && StringAt(body, m.key) == Reread(Reached(ms, m.key).value)
    {
      HasKeyOf(ms, m);
      StringFound(ms, m.key, tail);
    }
    if AllPrintable(f) && StringsReached(f) {
      forall m | m in ms ensures StringAt(body, m.key) == m.value { RereadExact(m.value); }
    }
    if forall m :: m in ms ==> StringAt(body, m.key) == m.value {
      assert ms[0] in ms && ms[1] in ms && ms[2] in ms && ms[3] in ms && ms[4] in ms;
      forall m | m in ms ensures Printable(m.value) { RereadIsPrintable(Reached(ms, m.key).value); }
      forall m | m in ms ensures Reached(ms, m.key) == Some(m.value) {
        var v := Reached(ms, m.key).value;
        ReachedIsMember(ms, m.key);
        RereadExact(v);
      }
    }
  }

  lemma {:induction false} ReachedIsMember(ms: seq<Member>, key: string)
    requires Reached(ms, key).Some?
    ensures exists m :: m in ms && m.value == Reached(ms, key).value
  {
    if ms[0].key == key {
      assert ms[0] in ms;
    } else if Shadows(ms[0].value, key) {
      assert ms[1] in ms;
    } else {
      ReachedIsMember(ms[1..], key);
      var m :| m in ms[1..] && m.value == Reached(ms[1..], key).value;
      assert m in ms;
    }
  }

  // The ttl of a posted body is read back exactly when the first value that
  // shadows "ttl" is the payload or there is none, or the ttl is the default.
  lemma PostedTtlExact(f: Fragment)
    requires -INT64_BOUND <= f.ttl < INT64_BOUND
    ensures IntAt(PostBody(f), "ttl", 0) == f.ttl <==> f.ttl == 0 || FirstShadow(StringMembers(f), "ttl") >= 4
  {
    KeysAreGood(f);
    var ms := StringMembers(f);
    assert "" + TtlMember(f) == TtlMember(f);
    AfterHere(Quoted("ttl"), ":" + (IntText(f.ttl) + "}"));
    IntMemberFound(ms, "ttl", "");
    if FirstShadow(ms, "ttl") == 5 {
      IntUnshadowed(ms, "ttl", "", f.ttl, 0);
    } else if FirstShadow(ms, "ttl") == 4 {
      IntAfterLast(ms, "ttl", "ttl", f.ttl, "}", 0);
    } else {
      IntShadowed(ms, "ttl", "", f.ttl, 0);
    }
  }

  // The client's body comes out of the POST handler's reader unchanged exactly
  // when its strings are printable, no search is misled, and the ttl is reached.
  lemma PostBodyExact(f: Fragment)
    requires -INT64_BOUND <= f.ttl < INT64_BOUND
    ensures BodyFragment(PostBody(f)) == f.(timestamp := 0) <==>
      AllPrintable(f) && StringsReached(f) && (f.ttl == 0 || FirstShadow(StringMembers(f), "ttl") >= 4)
  {
    StringsExact(f, TtlMember(f));
    PostedTtlExact(f);
    var ms := StringMembers(f);
    assert ms[0] in ms && ms[1] in ms && ms[2] in ms && ms[3] in ms && ms[4] in ms;
  }

  // A condition on the values alone under which nothing is misled.
  lemma UnshadowedReached(f: Fragment)
    requires Unshadowed(f)
    ensures StringsReached(f) && FirstShadow(StringMembers(f), "ttl") >= 4
  {
    var ms := StringMembers(f);
    assert ms[1..][0] == ms[1] && ms[1..][1..] == ms[2..] && ms[2..][1..] == ms[3..] && ms[3..][1..] == ms[4..];
    ReachedSteps(ms, "id");
    ReachedSteps(ms, "message_id");
    ReachedSteps(ms, "chat_id");
    ReachedSteps(ms, "sender_hash");
    ReachedSteps(ms, "payload");
    forall m | m in ms ensures Reached(ms, m.key) == Some(m.value) {
      assert m in [ms[0], ms[1], ms[2], ms[3], ms[4]];
    }
    assert FirstShadow(ms, "ttl") == 1 + FirstShadow(ms[1..], "ttl");
    assert FirstShadow(ms[1..], "ttl") == 1 + FirstShadow(ms[2..], "ttl");
    assert FirstShadow(ms[2..], "ttl") == 1 + FirstShadow(ms[3..], "ttl");
    assert FirstShadow(ms[3..], "ttl") == 1 + FirstShadow(ms[4..], "ttl");
  }

  lemma ReachedSteps(ms: seq<Member>, key: string)
    requires |ms| == 5
    ensures ReachedStep(ms, key, 0) && ReachedStep(ms, key, 1) && ReachedStep(ms, key, 2)
    ensures ReachedStep(ms, key, 3) && ReachedStep(ms, key, 4)
    ensures ms[0..] == ms
  {
    forall k | 0 <= k < 5 ensures ReachedStep(ms, key, k) {
      assert ms[k..][1..] == ms[k + 1..] && ms[k..][0] == ms[k];
      if k < 4 { assert ms[k..][1] == ms[k + 1]; }
    }
  }

  predicate ReachedStep(ms: seq<Member>, key: string, k: nat)
    requires k < |ms|
  {
    Reached(ms[k..], key) ==
      (if ms[k].key == key then Some(ms[k].value)
       else if Shadows(ms[k].value, key) then (if k < |ms| - 1 then Some(ms[k + 1].value) else None)
       else Reached(ms[k + 1..], key))
  }

  // The number lead of fragment_to_json holds no "ttl" key.
  lemma LeadHasNoTtl(f: Fragment, rest: string)
    ensures After(TimestampLead(f) + rest, Quoted("ttl")) == After(rest, Quoted("ttl"))
  {
    var stamp := IntText(f.timestamp) + ",";
    assert '"' !in stamp;
    var number := "\"" + (":" + (stamp + rest));
    var t := "timestamp" + number;
    assert TimestampLead(f) + rest == ['"'] + t;
    hide IntText, TimestampLead, After;
    assert (['"'] + t)[2] == 'i' && Quoted("ttl")[2] == 't';
    AfterStep('"', t, Quoted("ttl"));
    AfterSkip("timestamp", number, Quoted("ttl"));
    QuoteThenPunctuation(':', stamp + rest, "ttl");
    AfterSkip(stamp, rest, Quoted("ttl"));
  }

  // The server's own text read back by the same reader: all five strings and
  // the ttl, when no value shadows a key it is not followed by; a payload that
  // shadows "ttl" makes the reader return the timestamp instead.
  lemma FragmentJsonReadBack(f: Fragment)
    requires -INT64_BOUND <= f.ttl < INT64_BOUND && -INT64_BOUND <= f.timestamp < INT64_BOUND
    requires AllPrintable(f) && Unshadowed(f)
    ensures BodyFragment(FragmentJson(f)) ==
      f.(timestamp := 0, ttl := if Shadows(f.payload, "ttl") then f.timestamp else f.ttl)
  {
    var ms := StringMembers(f);
    UnshadowedReached(f);
    KeysAreGood(f);
    StringsExact(f, TimestampLead(f) + TtlMember(f));
    assert ms[0] in ms && ms[1] in ms && ms[2] in ms && ms[3] in ms && ms[4] in ms;
    LeadHasNoTtl(f, TtlMember(f));
    AfterHere(Quoted("ttl"), ":" + (IntText(f.ttl) + "}"));
    if Shadows(f.payload, "ttl") {
      LastShadow(f);
    } else {
      NoShadow(f);
      IntUnshadowed(ms, "ttl", TimestampLead(f), f.ttl, 0);
    }
  }

  lemma NoShadow(f: Fragment)
    requires FirstShadow(StringMembers(f), "ttl") >= 4 && !Shadows(f.payload, "ttl")
    ensures FirstShadow(StringMembers(f), "ttl") == 5
  {
    var ms := StringMembers(f);
    KeysAreGood(f);
    IntMemberFound(ms, "ttl", "");
    if FirstShadow(ms, "ttl") == 4 { FirstShadowShadows(ms, "ttl"); }
  }

  lemma {:induction false} FirstShadowShadows(ms: seq<Member>, key: string)
    ensures FirstShadow(ms, key) < |ms| ==> Shadows(ms[FirstShadow(ms, key)].value, key)
    ensures forall k :: 0 <= k < FirstShadow(ms, key) && k < |ms| ==> !Shadows(ms[k].value, key)
  {
    if ms == [] || Shadows(ms[0].value, key) {
    } else {
      FirstShadowShadows(ms[1..], key);
      assert forall k :: 1 <= k < |ms| ==> ms[k] == ms[1..][k - 1];
    }
  }

  lemma LastShadow(f: Fragment)
    requires -INT64_BOUND <= f.timestamp < INT64_BOUND
    requires FirstShadow(StringMembers(f), "ttl") >= 4 && Shadows(f.payload, "ttl")
    ensures IntAt(FragmentJson(f), "ttl", 0) == f.timestamp
  {
    var ms := StringMembers(f);
    KeysAreGood(f);
    hide Shadows, IntAt, IntText;
    IntMemberFound(ms, "ttl", "");
    FirstShadowShadows(ms, "ttl");
    IntAfterLast(ms, "ttl", "timestamp", f.timestamp, "," + TtlMember(f), 0);
    assert Quoted("timestamp") + (":" + (IntText(f.timestamp) + ("," + TtlMember(f)))) ==
      TimestampLead(f) + TtlMember(f);
  }

  // The least payload that does so: the text "ttl".
  lemma PayloadIsTtl(stamp: int, ttl: int)
    requires -INT64_BOUND <= ttl < INT64_BOUND && -INT64_BOUND <= stamp < INT64_BOUND
    ensures BodyFragment(FragmentJson(Fragment("i", "m", "c", "s", "ttl", stamp, ttl))).ttl == stamp
  {
    var f := Fragment("i", "m", "c", "s", "ttl", stamp, ttl);
    LetterShadowsNothing("i");
    LetterShadowsNothing("m");
    LetterShadowsNothing("c");
    LetterShadowsNothing("s");
    hide FragmentJson, BodyFragment, EndsQuoted;
    FragmentJsonReadBack(f);
  }

  lemma LetterShadowsNothing(v: string)
    requires |v| == 1 && 'a' <= v[0] <= 'z'
    ensures Printable(v) && forall key :: |key| > 1 ==> !Shadows(v, key)
  {
    forall key | |key| > 1 ensures !Shadows(v, key) {
      assert v[1..] == "" && !EndsQuoted("", key);
    }
  }
}
