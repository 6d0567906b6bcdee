/** The conversation directory and message ledger of backend/controllers/chatController.js,
    over an in-memory picture of the `conversations` and `messages` collections. */
module ChatController {
  import opened Common
  import Sequences

  datatype Conversation = Conversation(
    id: ObjectId,
    members: seq<ObjectId>,
    latestMessage: Option<ObjectId>,
    createdAt: Timestamp,
    updatedAt: Timestamp)

  datatype Message = Message(
    id: ObjectId,
    sender: ObjectId,
    text: Option<string>,
    image: Option<string>,
    conversationId: ObjectId,
    createdAt: Timestamp)

  /** The `$all: [a, b]` test: both users are members, in whatever order. */
  predicate HasBoth(c: Conversation, a: ObjectId, b: ObjectId)
  {
    a in c.members && b in c.members
  }

  /** Index of the first conversation, in natural order, holding both users; |convs| when none. */
  function FindPair(convs: seq<Conversation>, a: ObjectId, b: ObjectId): (i: nat)
    ensures i <= |convs|
    ensures i < |convs| ==> HasBoth(convs[i], a, b)
    ensures forall j :: 0 <= j < i ==> !HasBoth(convs[j], a, b)
  {
    if convs == [] then 0
    else if HasBoth(convs[0], a, b) then 0
    else 1 + FindPair(convs[1..], a, b)
  }

  /** The membership test does not depend on which of the two users asks. */
  lemma {:induction false} FindPairSymmetric(convs: seq<Conversation>, a: ObjectId, b: ObjectId)
    ensures FindPair(convs, a, b) == FindPair(convs, b, a)
    decreases |convs|
  {
    if convs != [] {
      FindPairSymmetric(convs[1..], a, b);
    }
  }

  /** Once a conversation [a, b] is appended where none held the pair, both orders find it. */
  lemma {:induction false} FindPairAfterCreate(convs: seq<Conversation>, c: Conversation, a: ObjectId, b: ObjectId)
    requires FindPair(convs, a, b) == |convs|
    requires c.members == [a, b]
    ensures FindPair(convs + [c], a, b) == |convs|
    ensures FindPair(convs + [c], b, a) == |convs|
    decreases |convs|
  {
    if convs == [] {
      assert convs + [c] == [c];
    } else {
      assert (convs + [c])[1..] == convs[1..] + [c];
      FindPairAfterCreate(convs[1..], c, a, b);
    }
    FindPairSymmetric(convs + [c], a, b);
  }

  /** Index of the conversation whose `_id` is `id` (`findById`); |convs| when none. */
  function FindById(convs: seq<Conversation>, id: ObjectId): (i: nat)
    ensures i <= |convs|
    ensures i < |convs| ==> convs[i].id == id
    ensures forall j :: 0 <= j < i ==> convs[j].id != id
  {
    if convs == [] then 0
    else if convs[0].id == id then 0
    else 1 + FindById(convs[1..], id)
  }

  /** `sendMessage`'s guard: a conversation id and at least one of text and image. */
  predicate ValidSend(conversationId: Option<ObjectId>, text: Option<string>, image: Option<string>)
  {
    conversationId.Some? && (Truthy(text) || Truthy(image))
  }

  /** The members the server pushes 'message received' to: all but the sender (by id). */
  function Recipients(members: seq<ObjectId>, sender: ObjectId): (r: seq<ObjectId>)
  {
    Sequences.Filter(members, (u: ObjectId) => u != sender)
  }

  /** Every member other than the sender is pushed to as many times as it is listed, so exactly
      once in a conversation without repeated members, and the sender never is. */
  lemma RecipientsCount(members: seq<ObjectId>, sender: ObjectId, u: ObjectId)
    ensures multiset(Recipients(members, sender))[u] == if u == sender then 0 else multiset(members)[u]
  {
    Sequences.FilterCount(members, (v: ObjectId) => v != sender, u);
  }

  /** Every conversation `accessConversation` creates is [caller, target] with the two different. */
  predicate IsPair(members: seq<ObjectId>)
  {
    |members| == 2 && members[0] != members[1]
  }

  /** In a two-party conversation, each member other than the sender gets exactly one push. */
  lemma RecipientsOfPair(members: seq<ObjectId>, sender: ObjectId, u: ObjectId)
    requires IsPair(members) && u in members
    ensures multiset(Recipients(members, sender))[u] == if u == sender then 0 else 1
  {
    RecipientsCount(members, sender, u);
    assert members == [members[0]] + [members[1]];
  }

  /** The `forEach` over the populated members that emits one push per recipient. */
  method NotifyMembers(members: seq<ObjectId>, sender: ObjectId) returns (pushed: seq<ObjectId>)
    ensures pushed == Recipients(members, sender)
  {
    pushed := [];
    var i := 0;
    while i < |members|
      invariant 0 <= i <= |members|
      invariant pushed == Recipients(members[..i], sender)
    {
      var user := members[i];
      Sequences.FilterConcat(members[..i], [user], (u: ObjectId) => u != sender);
      assert members[..i + 1] == members[..i] + [user];
      if user != sender {
        pushed := pushed + [user];
      }
      i := i + 1;
    }
    assert members[..i] == members;
  }

  /** A populated ObjectId as JavaScript holds it: an object (`ref` is its identity) wrapping
      the id's value. Each `populate` call builds new objects. */
  datatype IdObject = IdObject(ref: nat, value: ObjectId)

  /** The recipient loop as written: `user._id == message.sender._id` with `==` on two
      objects, which compares identities, not id values. */
  function RecipientsAsWritten(members: seq<IdObject>, sender: IdObject): (r: seq<IdObject>)
  {
    Sequences.Filter(members, (u: IdObject) => u.ref != sender.ref)
  }

  function Values(xs: seq<IdObject>): (r: seq<ObjectId>)
    ensures |r| == |xs|
    ensures forall i :: 0 <= i < |xs| ==> r[i] == xs[i].value
  {
    if xs == [] then [] else [xs[0].value] + Values(xs[1..])
  }

  /** The sender is populated separately from the conversation's members, so no member object is
      the sender object: as written, every member, the sender included, is pushed to. */
  lemma {:induction false} AsWrittenPushesEveryMember(members: seq<IdObject>, sender: IdObject)
    requires forall i :: 0 <= i < |members| ==> members[i].ref != sender.ref
    ensures Values(RecipientsAsWritten(members, sender)) == Values(members)
    decreases |members|
  {
    if members != [] {
      AsWrittenPushesEveryMember(members[1..], sender);
    }
  }

  /** The input that shows it: A (id 7) writes in the conversation of A and B (id 9); the sender
      object and A's member object are distinct, so A is pushed its own message. */
  lemma AsWrittenEchoesToSender()
    ensures var members := [IdObject(1, 7), IdObject(2, 9)];
            var sender := IdObject(3, 7);
            Values(RecipientsAsWritten(members, sender)) == [7, 9]
            && Recipients(Values(members), sender.value) == [9]
  {
    var members := [IdObject(1, 7), IdObject(2, 9)];
    var sender := IdObject(3, 7);
    AsWrittenPushesEveryMember(members, sender);
    assert Values(members) == [7, 9];
    var ids: seq<ObjectId> := [7, 9];
    assert ids[1..] == [9];
    assert Recipients(ids, 7) == [] + Recipients([9], 7);
  }

  function UpdatedAt(c: Conversation): int { c.updatedAt }

  function IsMember(userId: ObjectId): Conversation -> bool
  {
    (c: Conversation) => userId in c.members
  }

  /** `fetchChats`: the caller's conversations, most recently updated first. */
  function FetchChats(convs: seq<Conversation>, userId: ObjectId): (r: seq<Conversation>)
  {
    Sequences.SortDesc(Sequences.Filter(convs, IsMember(userId)), UpdatedAt)
  }

  /** Exactly the conversations the caller belongs to, each once per stored copy, newest first. */
  lemma FetchChatsSpec(convs: seq<Conversation>, userId: ObjectId)
    ensures var r := FetchChats(convs, userId);
      && (forall i :: 0 <= i < |r| ==> r[i] in convs && userId in r[i].members)
      && (forall c :: c in convs ==> multiset(r)[c] == if userId in c.members then multiset(convs)[c] else 0)
      && (forall i, j :: 0 <= i < j < |r| ==> r[i].updatedAt >= r[j].updatedAt)
  {
    var r := FetchChats(convs, userId);
    var kept := Sequences.Filter(convs, IsMember(userId));
    forall i | 0 <= i < |r|
      ensures r[i] in kept
    {
      assert r[i] in multiset(r);
    }
    forall c | c in convs
      ensures multiset(r)[c] == if userId in c.members then multiset(convs)[c] else 0
    {
      Sequences.FilterCount(convs, IsMember(userId), c);
    }
  }

  function InConversation(conversationId: ObjectId): Message -> bool
  {
    (m: Message) => m.conversationId == conversationId
  }

  /** `allMessages`: the conversation's messages in natural (insertion) order. */
  function AllMessages(msgs: seq<Message>, conversationId: ObjectId): (r: seq<Message>)
  {
    Sequences.Filter(msgs, InConversation(conversationId))
  }

  /** Exactly the messages of that conversation, in the order they were stored. */
  lemma AllMessagesSpec(msgs: seq<Message>, conversationId: ObjectId)
    ensures var r := AllMessages(msgs, conversationId);
      && Sequences.IsSubsequence(r, msgs)
      && (forall i :: 0 <= i < |r| ==> r[i].conversationId == conversationId)
      && (forall j :: 0 <= j < |msgs| && msgs[j].conversationId == conversationId ==> msgs[j] in r)
  {
    Sequences.FilterIsSubsequence(msgs, InConversation(conversationId));
  }

  /** A stored message is listed last for its conversation and changes no other listing. */
  lemma AllMessagesAfterAppend(msgs: seq<Message>, m: Message, conversationId: ObjectId)
    ensures AllMessages(msgs + [m], conversationId) ==
      if m.conversationId == conversationId then AllMessages(msgs, conversationId) + [m]
      else AllMessages(msgs, conversationId)
  {
    Sequences.FilterConcat(msgs, [m], InConversation(conversationId));
  }

  /** Ids are unique among conversations, every id in use is below the next one, and every
      conversation is between two different users. */
  predicate StoreInvariant(convs: seq<Conversation>, msgs: seq<Message>, nextId: ObjectId)
  {
    && (forall i, j :: 0 <= i < j < |convs| ==> convs[i].id != convs[j].id)
    && (forall i :: 0 <= i < |convs| ==> IsPair(convs[i].members))
    && (forall i :: 0 <= i < |convs| ==> convs[i].id < nextId)
    && (forall i :: 0 <= i < |msgs| ==> msgs[i].id < nextId)
  }

  /** The `conversations` and `messages` collections. */
  class ChatStore {
    var conversations: seq<Conversation>
    var messages: seq<Message>
    var nextId: ObjectId

    ghost predicate Valid()
      reads this
    {
      StoreInvariant(conversations, messages, nextId)
    }

    constructor ()
      ensures Valid() && conversations == [] && messages == []
    {
      conversations, messages, nextId := [], [], 0;
    }

    /** `accessConversation`: 400 without a target or for oneself; the first conversation
        holding both users when there is one; otherwise a new conversation [caller, target]. */
    method AccessConversation(caller: ObjectId, userId: Option<ObjectId>, now: Timestamp)
      returns (status: Status, chat: Option<Conversation>)
      requires Valid()
      modifies this
      ensures Valid()
      ensures messages == old(messages)
      ensures status == BadRequest400 <==> userId.None? || userId.value == caller
      ensures status == BadRequest400 ==> chat.None? && conversations == old(conversations)
      ensures status != BadRequest400 ==> status == Ok200 && chat.Some? && HasBoth(chat.value, caller, userId.value)
      ensures status == Ok200 && FindPair(old(conversations), caller, userId.value) < |old(conversations)| ==>
        chat.value == old(conversations)[FindPair(old(conversations), caller, userId.value)]
        && conversations == old(conversations)
      ensures status == Ok200 && FindPair(old(conversations), caller, userId.value) == |old(conversations)| ==>
        chat.value == Conversation(old(nextId), [caller, userId.value], None, now, now)
        && conversations == old(conversations) + [chat.value]
    {
      if userId.None? {
        return BadRequest400, None;
      }
      var target := userId.value;
      if caller == target {
        return BadRequest400, None;
      }
      var k := FindPair(conversations, caller, target);
      if k < |conversations| {
        status, chat := Ok200, Some(conversations[k]);
      } else {
        var created := Conversation(nextId, [caller, target], None, now, now);
        conversations := conversations + [created];
        nextId := nextId + 1;
        status, chat := Ok200, Some(created);
      }
    }

    /** Two calls for the same pair, the second from either side, give the same conversation,
        and the second one creates nothing. */
    method AccessTwice(a: ObjectId, b: ObjectId, swap: bool, t1: Timestamp, t2: Timestamp)
      returns (first: Conversation, second: Conversation)
      requires Valid() && a != b
      modifies this
      ensures Valid()
      ensures first == second
      ensures |conversations| <= |old(conversations)| + 1
    {
      var s1, c1 := AccessConversation(a, Some(b), t1);
      ghost var between := conversations;
      var s2, c2;
      if swap {
        s2, c2 := AccessConversation(b, Some(a), t2);
      } else {
        s2, c2 := AccessConversation(a, Some(b), t2);
      }
      FindPairSymmetric(old(conversations), a, b);
      FindPairSymmetric(between, a, b);
      if FindPair(old(conversations), a, b) == |old(conversations)| {
        FindPairAfterCreate(old(conversations), c1.value, a, b);
      } else {
        FindPairKeptOnAppend(old(conversations), between, a, b);
      }
      first, second := c1.value, c2.value;
    }

    /** `sendMessage`. 400 and nothing stored without a conversation id or with neither text nor
        image. Otherwise the message is stored with the caller as sender; when the conversation
        exists its `latestMessage` (and `updatedAt`) now name it, no other conversation changes,
        and its members other than the sender are pushed to. When it does not exist, the stored
        message stays, and reading the members of the missing conversation fails: 400, no push. */
    method SendMessage(caller: ObjectId, conversationId: Option<ObjectId>, text: Option<string>,
                       image: Option<string>, now: Timestamp)
      returns (status: Status, sent: Option<Message>, pushed: seq<ObjectId>)
      requires Valid()
      modifies this
      ensures Valid()
      ensures !ValidSend(conversationId, text, image) ==>
        status == BadRequest400 && sent.None? && pushed == []
        && conversations == old(conversations) && messages == old(messages)
      ensures ValidSend(conversationId, text, image) ==>
        var m := Message(old(nextId), caller, text, image, conversationId.value, now);
        var k := FindById(old(conversations), conversationId.value);
        && messages == old(messages) + [m]
        && AllMessages(messages, m.conversationId) == AllMessages(old(messages), m.conversationId) + [m]
        && (k == |old(conversations)| ==>
              status == BadRequest400 && sent.None? && pushed == [] && conversations == old(conversations))
        && (k < |old(conversations)| ==>
              && status == Ok200 && sent == Some(m)
              && conversations == old(conversations)[k := old(conversations)[k].(latestMessage := Some(m.id), updatedAt := now)]
              && pushed == Recipients(old(conversations)[k].members, caller)
              && (forall u :: u in old(conversations)[k].members ==>
                    multiset(pushed)[u] == if u == caller then 0 else 1))
    {
      if !ValidSend(conversationId, text, image) {
        return BadRequest400, None, [];
      }
      var cid := conversationId.value;
      var m := Message(nextId, caller, text, image, cid, now);
      AllMessagesAfterAppend(messages, m, cid);
      messages := messages + [m];
      nextId := nextId + 1;
      var k := FindById(conversations, cid);
      if k == |conversations| {
        return BadRequest400, None, [];
      }
      conversations := conversations[k := conversations[k].(latestMessage := Some(m.id), updatedAt := now)];
      pushed := NotifyMembers(conversations[k].members, caller);
      forall u | u in conversations[k].members
        ensures multiset(pushed)[u] == if u == caller then 0 else 1
      {
        RecipientsOfPair(conversations[k].members, caller, u);
      }
      status, sent := Ok200, Some(m);
    }
  }

  /** A lookup that already succeeds keeps its answer when conversations are only appended. */
  lemma {:induction false} FindPairKeptOnAppend(convs: seq<Conversation>, later: seq<Conversation>, a: ObjectId, b: ObjectId)
    requires FindPair(convs, a, b) < |convs|
    requires |convs| <= |later| && later[..|convs|] == convs
    ensures FindPair(later, a, b) == FindPair(convs, a, b)
    decreases |convs|
  {
    if !HasBoth(convs[0], a, b) {
      assert later[0] == convs[0];
      assert later[1..][..|convs| - 1] == convs[1..];
      FindPairKeptOnAppend(convs[1..], later[1..], a, b);
    }
  }
}
