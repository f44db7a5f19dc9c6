/** The message store: the paired write of `sendMessage` and the filtered read of
    `getMessages` with its two special cases. */
module MessageStore {
  import opened Items
  import opened Ids

  /** The identifiers of the stored messages, in store order. */
  function MessageIds(ms: seq<Message>): (ids: seq<int>)
    ensures |ids| == |ms| && forall i :: 0 <= i < |ms| ==> ids[i] == ms[i].id
  {
    seq(|ms|, i requires 0 <= i < |ms| => ms[i].id)
  }

  /** The identifier `createMessageID` hands out next. */
  function NextMessageId(ms: seq<Message>): int {
    MaxId(MessageIds(ms)) + 1
  }

  /** First stage of `getMessages`: the copies delivered to `u`, in store order. */
  function Delivered(ms: seq<Message>, u: int): seq<Message> {
    if ms == [] then []
    else Delivered(ms[..|ms| - 1], u) + (if ms[|ms| - 1].toUserId == u then [ms[|ms| - 1]] else [])
  }

  /** Second stage of `getMessages`: the copies filed under `v`, in order. */
  function FiledUnder(ms: seq<Message>, v: int): seq<Message> {
    if ms == [] then []
    else FiledUnder(ms[..|ms| - 1], v) + (if ms[|ms| - 1].userId == v then [ms[|ms| - 1]] else [])
  }

  /** The conversation `u` reads from `v`: the copies delivered to `u` and filed under
      `v`, in store order; a one-pass reference for the two-stage filter. */
  function Conversation(ms: seq<Message>, u: int, v: int): seq<Message> {
    if ms == [] then []
    else
      var m := ms[|ms| - 1];
      Conversation(ms[..|ms| - 1], u, v) + (if m.toUserId == u && m.userId == v then [m] else [])
  }

  /** `sendMessage(a, b, t)`: the returned peer copy and the store afterwards. The self
      copy is filed under `b` for `a`; the peer copy is filed under `a` for `b`. */
  function Send(ms: seq<Message>, a: int, b: int, t: string): (Message, seq<Message>) {
    var self := Message(NextMessageId(ms), t, b, a, true);
    var peer := Message(NextMessageId(ms) + 1, t, a, b, false);
    (peer, ms + [self, peer])
  }

  /** The result shape the device-class caller gets: a single message. */
  function ForCaller(u: int, found: seq<Message>): seq<Message> {
    if u == DeviceClassUserId then
      if found == [] then [NoData] else [found[|found| - 1]]
    else found
  }

  /** `getMessages(u, v)`: the list it returns and the store afterwards. When `v` is the
      administrator and nothing matches, the administrator's greeting is sent to `u`
      and the query is answered again on the enlarged store. */
  function GetMessages(ms: seq<Message>, u: int, v: int): (seq<Message>, seq<Message>) {
    var found := Conversation(ms, u, v);
    if v == AdminUserId && found == [] then
      var ms' := Send(ms, v, u, AdminGreeting).1;
      (ForCaller(u, Conversation(ms', u, v)), ms')
    else (ForCaller(u, found), ms)
  }

  /** The store invariant: identifiers strictly increase along the list. */
  predicate MessagesValid(ms: seq<Message>) {
    Increasing(MessageIds(ms))
  }

  lemma SeedMessagesValid()
    ensures MessagesValid(SeedMessages)
  {
  }

  /** The two-stage filter of `getMessages` is the one-pass conversation filter. */
  lemma {:induction false} TwoStageIsConversation(ms: seq<Message>, u: int, v: int)
    ensures FiledUnder(Delivered(ms, u), v) == Conversation(ms, u, v)
  {
    if ms != [] {
      var init, m := ms[..|ms| - 1], ms[|ms| - 1];
      TwoStageIsConversation(init, u, v);
      FiledUnderAppend(Delivered(init, u), if m.toUserId == u then [m] else [], v);
    }
  }

  lemma {:induction false} FiledUnderAppend(a: seq<Message>, b: seq<Message>, v: int)
    ensures FiledUnder(a + b, v) == FiledUnder(a, v) + FiledUnder(b, v)
    decreases |b|
  {
    if b != [] {
      var b0 := b[..|b| - 1];
      assert (a + b)[..|a + b| - 1] == a + b0;
      FiledUnderAppend(a, b0, v);
    } else {
      assert a + b == a;
    }
  }

  /** A message is in the conversation exactly when it is stored, delivered to `u`
      and filed under `v`. */
  lemma {:induction false} ConversationMembers(ms: seq<Message>, u: int, v: int, m: Message)
    ensures m in Conversation(ms, u, v) <==> m in ms && m.toUserId == u && m.userId == v
  {
    if ms != [] {
      var init := ms[..|ms| - 1];
      ConversationMembers(init, u, v, m);
      assert ms == init + [ms[|ms| - 1]];
    }
  }

  lemma {:induction false} ConversationAppend(ms: seq<Message>, extra: seq<Message>, u: int, v: int)
    ensures Conversation(ms + extra, u, v) == Conversation(ms, u, v) + Conversation(extra, u, v)
    decreases |extra|
  {
    if extra != [] {
      var e0 := extra[..|extra| - 1];
      assert (ms + extra)[..|ms + extra| - 1] == ms + e0;
      ConversationAppend(ms, e0, u, v);
    } else {
      assert ms + extra == ms;
    }
  }

  /** `sendMessage` appends exactly the self copy (identifier max + 1) and then the peer
      copy (max + 2), returns the peer copy, and keeps identifiers increasing; the
      next identifier is then the peer copy's plus one. */
  lemma SendSpec(ms: seq<Message>, a: int, b: int, t: string)
    requires MessagesValid(ms)
    ensures var (peer, ms') := Send(ms, a, b, t);
      var self := ms'[|ms|];
      |ms'| == |ms| + 2 && ms'[..|ms|] == ms && ms'[|ms| + 1] == peer &&
      self == Message(MaxId(MessageIds(ms)) + 1, t, b, a, true) &&
      peer == Message(MaxId(MessageIds(ms)) + 2, t, a, b, false) &&
      NextMessageId(ms'[..|ms| + 1]) == peer.id &&
      MessagesValid(ms') && NextMessageId(ms') == peer.id + 1
  {
    var (peer, ms') := Send(ms, a, b, t);
    var ids := MessageIds(ms);
    AllocateKeepsIncreasing(ids);
    MaxIdAppendAbove(ids, MaxId(ids) + 1);
    AllocateKeepsIncreasing(ids + [MaxId(ids) + 1]);
    assert ms'[..|ms| + 1] == ms + [ms'[|ms|]];
    assert MessageIds(ms'[..|ms| + 1]) == ids + [MaxId(ids) + 1];
    assert MessageIds(ms') == ids + [MaxId(ids) + 1] + [MaxId(ids) + 2];
    MaxIdAppendAbove(ids + [MaxId(ids) + 1], MaxId(ids) + 2);
  }

  /** The peer copy of a send is the last message of the conversation the recipient
      reads from the sender; a read right after the send ends with it, adds nothing,
      and for the administrator as sender it is not answered by another greeting. */
  lemma SendThenGet(ms: seq<Message>, a: int, b: int, t: string)
    ensures var (peer, ms') := Send(ms, a, b, t);
      var (r, ms'') := GetMessages(ms', b, a);
      ms'' == ms' && r != [] && r[|r| - 1] == peer && peer.text == t && !peer.fromMe
  {
    var (peer, ms') := Send(ms, a, b, t);
    var self := ms'[|ms|];
    assert ms' == ms + [self, peer];
    ConversationAppend(ms, [self, peer], b, a);
    var c := Conversation([self, peer], b, a);
    assert [self, peer][..1] == [self];
    assert c[|c| - 1] == peer;
  }

  /** Asking the administrator never yields an empty list: when nothing matched, one
      greeting pair is sent from the administrator to `u` and the retry finds it;
      otherwise the store is left as it was. */
  lemma AdminNeverSilent(ms: seq<Message>, u: int)
    ensures var (r, ms') := GetMessages(ms, u, AdminUserId);
      r != [] && Conversation(ms', u, AdminUserId) != [] &&
      (Conversation(ms, u, AdminUserId) == [] ==>
        ms' == Send(ms, AdminUserId, u, AdminGreeting).1 &&
        Conversation(ms', u, AdminUserId)[|Conversation(ms', u, AdminUserId)| - 1].text == AdminGreeting) &&
      (Conversation(ms, u, AdminUserId) != [] ==> ms' == ms)
  {
    if Conversation(ms, u, AdminUserId) == [] {
      SendThenGet(ms, AdminUserId, u, AdminGreeting);
    }
  }

  /** A second query to the administrator sends no second greeting. */
  lemma AdminGreetsOnce(ms: seq<Message>, u: int)
    ensures var ms' := GetMessages(ms, u, AdminUserId).1;
      GetMessages(ms', u, AdminUserId).1 == ms'
  {
    AdminNeverSilent(ms, u);
  }

  /** Away from both special cases `getMessages` returns the conversation and leaves the
      store unchanged. */
  lemma OrdinaryQuery(ms: seq<Message>, u: int, v: int)
    requires v != AdminUserId && u != DeviceClassUserId
    ensures GetMessages(ms, u, v) == (Conversation(ms, u, v), ms)
  {
  }

  /** The device-class caller always gets exactly one message: the placeholder when
      nothing matches, else the most recent match. */
  lemma DeviceClassSingle(ms: seq<Message>, v: int)
    ensures var (r, ms') := GetMessages(ms, DeviceClassUserId, v);
      var found := Conversation(ms', DeviceClassUserId, v);
      |r| == 1 &&
      (found == [] ==> r[0] == NoData) &&
      (found != [] ==> r[0] == found[|found| - 1] && r[0] in ms')
  {
    var (r, ms') := GetMessages(ms, DeviceClassUserId, v);
    var found := Conversation(ms', DeviceClassUserId, v);
    if found != [] {
      ConversationMembers(ms', DeviceClassUserId, v, found[|found| - 1]);
    }
  }

  /** `getMessages` keeps the store invariant and only ever appends. */
  lemma GetMessagesKeepsValid(ms: seq<Message>, u: int, v: int)
    requires MessagesValid(ms)
    ensures var ms' := GetMessages(ms, u, v).1;
      MessagesValid(ms') && |ms| <= |ms'| && ms'[..|ms|] == ms
  {
    SendSpec(ms, v, u, AdminGreeting);
  }
}
