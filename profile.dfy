/** The list helpers of frontend/src/pages/Profile.jsx: the helper contacts built from the
    user's chats, the fulfilment submission with its optimistic update, the delete filter and
    the post counters. The statuses are the strings this page writes and reads. */
module Profile {
  import opened Common
  import Sequences
  import ChatPage

  type Member = ChatPage.Member

  function IdOf(m: Member): ObjectId { m.id }

  /** The contact of each chat, `chat.members.find(m => m._id !== user._id) || chat.members[0]`.
      A chat without members gives `undefined`, and reading its `_id` throws: the whole
      fetch fails (None) and the contact list keeps its old value. */
  function Contacts(chats: seq<ChatPage.Chat>, userId: ObjectId): (r: Option<seq<Member>>)
    ensures r.None? <==> exists j :: 0 <= j < |chats| && |chats[j].members| == 0
    ensures r.Some? ==> |r.value| == |chats|
    ensures r.Some? ==> forall j :: 0 <= j < |chats| ==> Some(r.value[j]) == ChatPage.GetSenderInfo(userId, Some(chats[j].members))
  {
    if chats == [] then Some([])
    else
      match (ChatPage.GetSenderInfo(userId, Some(chats[0].members)), Contacts(chats[1..], userId))
      case (Some(c), Some(rest)) =>
        assert forall j :: 1 <= j < |chats| ==> chats[j] == chats[1..][j - 1];
        Some([c] + rest)
      case (None, _) => None
      case (_, None) =>
        var j :| 0 <= j < |chats[1..]| && |chats[1..][j].members| == 0;
        assert chats[j + 1] == chats[1..][j];
        None
  }

  /** `map.set(item._id, item)` on a JavaScript Map, kept as its values in insertion order:
      a known key keeps its place and takes the new value, a new key goes last. */
  function MapSet(entries: seq<Member>, x: Member): (r: seq<Member>)
    ensures Sequences.IndexOfKey(entries, IdOf, x.id) < |entries| ==>
      r == entries[Sequences.IndexOfKey(entries, IdOf, x.id) := x]
    ensures Sequences.IndexOfKey(entries, IdOf, x.id) == |entries| ==> r == entries + [x]
  {
    if entries == [] then [x]
    else if entries[0].id == x.id then [x] + entries[1..]
    else [entries[0]] + MapSet(entries[1..], x)
  }

  /** `[...new Map(contacts.map(item => [item._id, item])).values()]`. */
  function UniqueContacts(contacts: seq<Member>): (r: seq<Member>)
  {
    if contacts == [] then []
    else MapSet(UniqueContacts(contacts[..|contacts| - 1]), contacts[|contacts| - 1])
  }

  /** Index of the last contact with `id`; |cs| when none. */
  function LastIndexOfId(cs: seq<Member>, id: ObjectId): (i: nat)
    ensures i <= |cs|
    ensures i < |cs| ==> cs[i].id == id && forall j :: i < j < |cs| ==> cs[j].id != id
    ensures i == |cs| ==> forall j :: 0 <= j < |cs| ==> cs[j].id != id
  {
    if cs == [] then 0
    else if cs[|cs| - 1].id == id then |cs| - 1
    else
      var p := LastIndexOfId(cs[..|cs| - 1], id);
      if p == |cs| - 1 then |cs| else p
  }

  predicate DistinctIds(r: seq<Member>)
  {
    forall a, b :: 0 <= a < b < |r| ==> r[a].id != r[b].id
  }

  /** Every id given in `cs` has an entry in `r`. */
  predicate CoversIds(cs: seq<Member>, r: seq<Member>)
  {
    forall j :: 0 <= j < |cs| ==> Sequences.IndexOfKey(r, IdOf, cs[j].id) < |r|
  }

  /** Every entry of `r` is the last contact `cs` gives for its id. */
  predicate LastValues(cs: seq<Member>, r: seq<Member>)
  {
    forall k :: 0 <= k < |r| ==> LastIndexOfId(cs, r[k].id) < |cs| && r[k] == cs[LastIndexOfId(cs, r[k].id)]
  }

  /** The entries of `r` are ordered by where their ids first occur in `cs`. */
  predicate FirstOccurrenceOrder(cs: seq<Member>, r: seq<Member>)
  {
    forall a, b :: 0 <= a < b < |r| ==>
      Sequences.IndexOfKey(cs, IdOf, r[a].id) < Sequences.IndexOfKey(cs, IdOf, r[b].id)
  }

  /** The de-duplicated contacts: no id twice, every id of the input present, each contact the
      last one given for its id, and ids ordered by where they first occur. */
  lemma {:induction false} UniqueContactsSpec(cs: seq<Member>)
    ensures DistinctIds(UniqueContacts(cs))
    ensures CoversIds(cs, UniqueContacts(cs))
    ensures LastValues(cs, UniqueContacts(cs))
    ensures FirstOccurrenceOrder(cs, UniqueContacts(cs))
    decreases |cs|
  {
    if cs != [] {
      var init := cs[..|cs| - 1];
      var x := cs[|cs| - 1];
      assert cs == init + [x];
      UniqueContactsSpec(init);
      var r0 := UniqueContacts(init);
      assert UniqueContacts(cs) == MapSet(r0, x);
      StepDistinct(r0, x);
      StepCovers(init, x, r0);
      StepLastValues(init, x, r0);
      StepOrder(init, x, r0);
    }
  }

  lemma StepDistinct(r0: seq<Member>, x: Member)
    requires DistinctIds(r0)
    ensures DistinctIds(MapSet(r0, x))
  {
    var k := Sequences.IndexOfKey(r0, IdOf, x.id);
    var r := MapSet(r0, x);
    forall a, b | 0 <= a < b < |r|
      ensures r[a].id != r[b].id
    {
      if k < |r0| {
        assert r[a].id == r0[a].id && r[b].id == r0[b].id;
      } else if b == |r0| {
        assert r[a] == r0[a];
      } else {
        assert r[a] == r0[a] && r[b] == r0[b];
      }
    }
  }

  lemma StepCovers(init: seq<Member>, x: Member, r0: seq<Member>)
    requires CoversIds(init, r0)
    ensures CoversIds(init + [x], MapSet(r0, x))
  {
    var cs := init + [x];
    var k := Sequences.IndexOfKey(r0, IdOf, x.id);
    var r := MapSet(r0, x);
    forall j | 0 <= j < |cs|
      ensures Sequences.IndexOfKey(r, IdOf, cs[j].id) < |r|
    {
      var id := cs[j].id;
      var w := if j < |init| then (assert init[j] == cs[j]; Sequences.IndexOfKey(r0, IdOf, id))
               else if k < |r0| then k else |r0|;
      assert w < |r| && r[w].id == id;
    }
  }

  lemma StepLastValues(init: seq<Member>, x: Member, r0: seq<Member>)
    requires DistinctIds(r0) && LastValues(init, r0)
    ensures LastValues(init + [x], MapSet(r0, x))
  {
    var cs := init + [x];
    assert cs[..|cs| - 1] == init;
    var k := Sequences.IndexOfKey(r0, IdOf, x.id);
    var r := MapSet(r0, x);
    forall q | 0 <= q < |r|
      ensures LastIndexOfId(cs, r[q].id) < |cs| && r[q] == cs[LastIndexOfId(cs, r[q].id)]
    {
      if r[q] != x {
        assert q < |r0| && r[q] == r0[q];
        assert r0[q].id != x.id;
        assert LastIndexOfId(cs, r[q].id) == LastIndexOfId(init, r0[q].id);
      }
    }
  }

  /** Ids already in the map first occur in `init`, so appending `x` does not move them. */
  lemma KnownIdsKeepFirstIndex(init: seq<Member>, x: Member, r0: seq<Member>)
    requires LastValues(init, r0)
    ensures forall q :: 0 <= q < |r0| ==>
      Sequences.IndexOfKey(init + [x], IdOf, r0[q].id) == Sequences.IndexOfKey(init, IdOf, r0[q].id) < |init|
  {
    forall q | 0 <= q < |r0|
      ensures Sequences.IndexOfKey(init + [x], IdOf, r0[q].id) == Sequences.IndexOfKey(init, IdOf, r0[q].id) < |init|
    {
      Sequences.IndexOfKeyAppend(init, x, IdOf, r0[q].id);
      assert init[LastIndexOfId(init, r0[q].id)].id == r0[q].id;
    }
  }

  lemma StepOrder(init: seq<Member>, x: Member, r0: seq<Member>)
    requires CoversIds(init, r0) && LastValues(init, r0) && FirstOccurrenceOrder(init, r0)
    ensures FirstOccurrenceOrder(init + [x], MapSet(r0, x))
  {
    KnownIdsKeepFirstIndex(init, x, r0);
    if Sequences.IndexOfKey(r0, IdOf, x.id) < |r0| {
      StepOrderReplace(init, x, r0);
    } else {
      StepOrderAppend(init, x, r0);
    }
  }

  lemma StepOrderReplace(init: seq<Member>, x: Member, r0: seq<Member>)
    requires FirstOccurrenceOrder(init, r0)
    requires Sequences.IndexOfKey(r0, IdOf, x.id) < |r0|
    requires forall q :: 0 <= q < |r0| ==>
      Sequences.IndexOfKey(init + [x], IdOf, r0[q].id) == Sequences.IndexOfKey(init, IdOf, r0[q].id)
    ensures FirstOccurrenceOrder(init + [x], MapSet(r0, x))
  {
    var r := MapSet(r0, x);
    assert forall q :: 0 <= q < |r| ==> r[q].id == r0[q].id;
  }

  /** An id the map has not seen does not occur in the contacts it was built from. */
  lemma NewIdNotInInit(init: seq<Member>, x: Member, r0: seq<Member>)
    requires CoversIds(init, r0)
    requires Sequences.IndexOfKey(r0, IdOf, x.id) == |r0|
    ensures Sequences.IndexOfKey(init + [x], IdOf, x.id) == |init|
  {
    forall j | 0 <= j < |init|
      ensures init[j].id != x.id
    {
      assert Sequences.IndexOfKey(r0, IdOf, init[j].id) < |r0|;
    }
    Sequences.IndexOfKeyAppend(init, x, IdOf, x.id);
  }

  lemma StepOrderAppend(init: seq<Member>, x: Member, r0: seq<Member>)
    requires CoversIds(init, r0) && FirstOccurrenceOrder(init, r0)
    requires Sequences.IndexOfKey(r0, IdOf, x.id) == |r0|
    requires forall q :: 0 <= q < |r0| ==>
      Sequences.IndexOfKey(init + [x], IdOf, r0[q].id) == Sequences.IndexOfKey(init, IdOf, r0[q].id) < |init|
    ensures FirstOccurrenceOrder(init + [x], MapSet(r0, x))
  {
    NewIdNotInInit(init, x, r0);
    AppendedLast(init + [x], r0, x, |init|);
  }

  /** Appending an entry whose first index exceeds every other keeps the order. */
  lemma AppendedLast(cs: seq<Member>, r0: seq<Member>, x: Member, n: nat)
    requires forall a, b :: 0 <= a < b < |r0| ==>
      Sequences.IndexOfKey(cs, IdOf, r0[a].id) < Sequences.IndexOfKey(cs, IdOf, r0[b].id)
    requires forall q :: 0 <= q < |r0| ==> Sequences.IndexOfKey(cs, IdOf, r0[q].id) < n
    requires Sequences.IndexOfKey(cs, IdOf, x.id) == n
    ensures FirstOccurrenceOrder(cs, r0 + [x])
  {
    var r := r0 + [x];
    forall a, b | 0 <= a < b < |r|
      ensures Sequences.IndexOfKey(cs, IdOf, r[a].id) < Sequences.IndexOfKey(cs, IdOf, r[b].id)
    {
      assert r[a] == r0[a];
      if b < |r0| {
        assert r[b] == r0[b];
      }
    }
  }

  /** `fetchContacts`: the de-duplicated contacts, or nothing when building them fails. Every
      listed contact is the last one some chat gives for its id, in order of first appearance. */
  function FetchContacts(chats: seq<ChatPage.Chat>, userId: ObjectId): (r: Option<seq<Member>>)
    ensures r.None? <==> exists j :: 0 <= j < |chats| && |chats[j].members| == 0
    ensures r.Some? ==> DistinctIds(r.value)
    ensures r.Some? ==> forall j :: 0 <= j < |chats| ==>
      Sequences.IndexOfKey(r.value, IdOf, ChatPage.GetSenderInfo(userId, Some(chats[j].members)).value.id) < |r.value|
    ensures r.Some? ==> LastValues(Contacts(chats, userId).value, r.value)
    ensures r.Some? ==> FirstOccurrenceOrder(Contacts(chats, userId).value, r.value)
  {
    match Contacts(chats, userId)
    case None => None
    case Some(cs) =>
      UniqueContactsSpec(cs);
      assert forall j :: 0 <= j < |chats| ==> cs[j] == ChatPage.GetSenderInfo(userId, Some(chats[j].members)).value;
      Some(UniqueContacts(cs))
  }

  /** A post as this page holds it. */
  datatype PostCard = PostCard(id: ObjectId, title: string, status: string, fulfilledBy: Option<string>)

  /** `myPosts.map(p => p._id === id ? { ...p, status: 'fulfilled', fulfilledBy: helper } : p)`. */
  function MarkFulfilled(posts: seq<PostCard>, id: ObjectId, helper: string): (r: seq<PostCard>)
  {
    if posts == [] then []
    else [if posts[0].id == id then posts[0].(status := "fulfilled", fulfilledBy := Some(helper)) else posts[0]]
         + MarkFulfilled(posts[1..], id, helper)
  }

  /** The optimistic update touches only the posts with the target id, and on those only the
      status and the helper. */
  lemma {:induction false} MarkFulfilledSpec(posts: seq<PostCard>, id: ObjectId, helper: string)
    ensures var r := MarkFulfilled(posts, id, helper);
      && |r| == |posts|
      && (forall i :: 0 <= i < |posts| && posts[i].id != id ==> r[i] == posts[i])
      && (forall i :: 0 <= i < |posts| && posts[i].id == id ==>
            r[i].id == id && r[i].title == posts[i].title && r[i].status == "fulfilled" && r[i].fulfilledBy == Some(helper))
    decreases |posts|
  {
    if posts != [] {
      MarkFulfilledSpec(posts[1..], id, helper);
    }
  }

  function IsCompleted(p: PostCard): bool { p.status == "fulfilled" }
  function IsActive(p: PostCard): bool { p.status == "open" || p.status == "pending" }

  datatype Stats = Stats(totalPosts: nat, completedPosts: nat, activePosts: nat)

  /** `stats`: all posts, the fulfilled ones, and the open or pending ones. */
  function ComputeStats(posts: seq<PostCard>): (s: Stats)
    ensures s.totalPosts == |posts|
    ensures s.completedPosts + s.activePosts <= s.totalPosts
  {
    Sequences.DisjointFiltersFit(posts, IsCompleted, IsActive);
    Stats(|posts|, |Sequences.Filter(posts, IsCompleted)|, |Sequences.Filter(posts, IsActive)|)
  }

  function NotYetFulfilledWithId(id: ObjectId): PostCard -> bool
  {
    (p: PostCard) => p.id == id && p.status != "fulfilled"
  }

  /** After the optimistic update, the completed counter grows by the number of target posts
      that were not fulfilled yet, and the total is unchanged. */
  lemma {:induction false} FulfilCountsOnce(posts: seq<PostCard>, id: ObjectId, helper: string)
    ensures ComputeStats(MarkFulfilled(posts, id, helper)).totalPosts == ComputeStats(posts).totalPosts
    ensures ComputeStats(MarkFulfilled(posts, id, helper)).completedPosts ==
      ComputeStats(posts).completedPosts + |Sequences.Filter(posts, NotYetFulfilledWithId(id))|
    decreases |posts|
  {
    MarkFulfilledSpec(posts, id, helper);
    if posts != [] {
      FulfilCountsOnce(posts[1..], id, helper);
      var r := MarkFulfilled(posts, id, helper);
      assert r[1..] == MarkFulfilled(posts[1..], id, helper);
      assert r == [r[0]] + r[1..];
      assert posts == [posts[0]] + posts[1..];
    }
  }

  /** The page state `submitFulfillment` reads and writes. */
  datatype ProfileState = ProfileState(
    myPosts: seq<PostCard>,
    modalOpen: bool,
    targetPost: Option<PostCard>,
    selectedHelper: string)

  /** The request the page sends, if any. */
  datatype Outgoing = NoRequest | PutFulfill(postId: ObjectId, helperId: string)

  datatype Submission = Submission(state: ProfileState, request: Outgoing)

  /** `submitFulfillment`; `serverAccepts` is the outcome of the PUT. Without a selected helper
      it only alerts. Without a target post, reading its `_id` throws before the request and the
      error is only alerted. On success the posts are updated optimistically and the modal closes. */
  function SubmitFulfillment(st: ProfileState, serverAccepts: bool): (r: Submission)
    ensures st.selectedHelper == "" ==> r == Submission(st, NoRequest)
    ensures r.request.PutFulfill? <==> st.selectedHelper != "" && st.targetPost.Some?
    ensures r.request.PutFulfill? ==> r.request == PutFulfill(st.targetPost.value.id, st.selectedHelper)
    ensures !(r.request.PutFulfill? && serverAccepts) ==> r.state == st
    ensures r.request.PutFulfill? && serverAccepts ==>
      && r.state.myPosts == MarkFulfilled(st.myPosts, st.targetPost.value.id, st.selectedHelper)
      && !r.state.modalOpen && r.state.targetPost.None? && r.state.selectedHelper == ""
  {
    if st.selectedHelper == "" then Submission(st, NoRequest)
    else if st.targetPost.None? then Submission(st, NoRequest)
    else
      var target := st.targetPost.value;
      var request := PutFulfill(target.id, st.selectedHelper);
      if !serverAccepts then Submission(st, request)
      else Submission(ProfileState(MarkFulfilled(st.myPosts, target.id, st.selectedHelper), false, None, ""), request)
  }

  function IdIsNot(id: ObjectId): PostCard -> bool
  {
    (p: PostCard) => p.id != id
  }

  /** `myPosts.filter(post => post._id !== id)`. */
  function RemovePost(posts: seq<PostCard>, id: ObjectId): (r: seq<PostCard>)
  {
    Sequences.Filter(posts, IdIsNot(id))
  }

  /** The delete filter removes every post with the id and keeps every other post, in order and
      as often as it occurred. */
  lemma RemovePostSpec(posts: seq<PostCard>, id: ObjectId)
    ensures var r := RemovePost(posts, id);
      && Sequences.IsSubsequence(r, posts)
      && (forall i :: 0 <= i < |r| ==> r[i].id != id)
      && (forall p: PostCard :: p.id != id ==> multiset(r)[p] == multiset(posts)[p])
  {
    Sequences.FilterIsSubsequence(posts, IdIsNot(id));
    forall p: PostCard | p.id != id
      ensures multiset(RemovePost(posts, id))[p] == multiset(posts)[p]
    {
      Sequences.FilterCount(posts, IdIsNot(id), p);
    }
  }

  datatype Deletion = Deletion(myPosts: seq<PostCard>, requested: bool)

  /** `handleDelete`: asks for confirmation, sends the DELETE, and drops the post locally only
      when the server accepted it. */
  function HandleDelete(posts: seq<PostCard>, id: ObjectId, confirmed: bool, serverAccepts: bool): (d: Deletion)
    ensures d.requested == confirmed
    ensures !(confirmed && serverAccepts) ==> d.myPosts == posts
    ensures confirmed && serverAccepts ==> d.myPosts == RemovePost(posts, id)
  {
    if confirmed && serverAccepts then Deletion(RemovePost(posts, id), true)
    else Deletion(posts, confirmed)
  }
}
