/** The list helpers of frontend/src/pages/ChatPage.jsx: who the other member of a chat is,
    the "time ago" label, the search filter, the de-duplication by other member, and the
    updater that adds a freshly opened chat to the list. */
module ChatPage {
  import opened Common
  import Sequences

  /** A populated member as the client receives it. */
  datatype Member = Member(id: ObjectId, name: string)

  /** A conversation as listed on the page. */
  datatype Chat = Chat(id: ObjectId, members: seq<Member>, updatedAt: Timestamp)

  /** `members.findIndex(m => m._id !== userId)`, with |members| for "none". */
  function FirstOtherIndex(members: seq<Member>, userId: ObjectId): (i: nat)
    ensures i <= |members|
    ensures i < |members| ==> members[i].id != userId
    ensures forall j :: 0 <= j < i ==> members[j].id == userId
  {
    if members == [] then 0
    else if members[0].id != userId then 0
    else 1 + FirstOtherIndex(members[1..], userId)
  }

  /** `getSenderInfo`: null for missing or empty members; otherwise the first member who is not
      the logged-in user, or the first member when there is none. */
  function GetSenderInfo(userId: ObjectId, members: Option<seq<Member>>): (r: Option<Member>)
    ensures r.None? <==> members.None? || |members.value| == 0
    ensures r.Some? ==>
      exists k :: (&& 0 <= k < |members.value| && r.value == members.value[k]
                   && (forall j :: 0 <= j < k ==> members.value[j].id == userId)
                   && (k == 0 || r.value.id != userId))
    ensures r.Some? && r.value.id == userId ==> forall j :: 0 <= j < |members.value| ==> members.value[j].id == userId
  {
    match members
    case None => None
    case Some(ms) =>
      if ms == [] then None
      else
        var i := FirstOtherIndex(ms, userId);
        if i < |ms| then Some(ms[i]) else Some(ms[0])
  }

  /** The argument of `getTimeAgo`: falsy, a string `new Date` cannot parse, or a parsed instant. */
  datatype DateArg = NoDate | Unparseable | At(ms: Timestamp)

  /** The label `getTimeAgo` produces: '', "<n>d", "<n>h", "<n>m" or "now". */
  datatype Ago = Blank | Days(n: nat) | Hours(n: nat) | Minutes(n: nat) | JustNow

  const MsPerMinute: int := 60000
  const MsPerHour: int := 3600000
  const MsPerDay: int := 86400000

  /** `getTimeAgo`. Each unit is `Math.floor` of the previous one (Dafny's `/` by a positive
      number floors too), so the label shows the largest whole unit that has passed; an
      unparseable date gives NaN, which every comparison rejects, hence "now". */
  function TimeAgo(date: DateArg, now: Timestamp): (r: Ago)
    ensures r.Blank? <==> date.NoDate?
    ensures date.Unparseable? ==> r.JustNow?
    ensures date.At? ==>
      var elapsed := now - date.ms;
      && (r.Days? <==> elapsed >= MsPerDay)
      && (r.Days? ==> r.n * MsPerDay <= elapsed < (r.n + 1) * MsPerDay)
      && (r.Hours? <==> MsPerHour <= elapsed < MsPerDay)
      && (r.Hours? ==> r.n * MsPerHour <= elapsed < (r.n + 1) * MsPerHour)
      && (r.Minutes? <==> MsPerMinute <= elapsed < MsPerHour)
      && (r.Minutes? ==> r.n * MsPerMinute <= elapsed < (r.n + 1) * MsPerMinute)
      && (r.JustNow? <==> elapsed < MsPerMinute)
  {
    match date
    case NoDate => Blank
    case Unparseable => JustNow
    case At(t) =>
      var seconds := (now - t) / 1000;
      var minutes := seconds / 60;
      var hours := minutes / 60;
      var days := hours / 24;
      if days > 0 then Days(days)
      else if hours > 0 then Hours(hours)
      else if minutes > 0 then Minutes(minutes)
      else JustNow
  }

  /** A date in the future is shown as "now". */
  lemma FutureIsNow(t: Timestamp, now: Timestamp)
    requires now <= t
    ensures TimeAgo(At(t), now) == JustNow
  {
  }

  predicate IsDigit(c: char) { '0' <= c <= '9' }

  /** The decimal text of `n`, as a template literal renders it. */
  function Decimal(n: nat): (s: string)
    ensures |s| >= 1
    ensures forall i :: 0 <= i < |s| ==> IsDigit(s[i])
    ensures s[0] == '0' <==> n == 0
  {
    if n < 10 then [('0' as int + n) as char]
    else Decimal(n / 10) + [('0' as int + n % 10) as char]
  }

  function DecimalValue(s: string): (n: nat)
    requires forall i :: 0 <= i < |s| ==> IsDigit(s[i])
  {
    if s == [] then 0
    else
      assert IsDigit(s[|s| - 1]);
      DecimalValue(s[..|s| - 1]) * 10 + (s[|s| - 1] as int - '0' as int)
  }

  lemma {:induction false} DecimalRoundTrip(n: nat)
    ensures DecimalValue(Decimal(n)) == n
  {
    if n >= 10 {
      DecimalRoundTrip(n / 10);
      var s := Decimal(n);
      assert s[..|s| - 1] == Decimal(n / 10);
    }
  }

  /** The text shown for a label: the count in decimal followed by its unit letter. */
  function Label(a: Ago): (s: string)
    ensures s == "" <==> a.Blank?
    ensures a.JustNow? ==> s == "now"
    ensures a.Days? || a.Hours? || a.Minutes? ==>
      && |s| >= 2
      && s[|s| - 1] == (if a.Days? then 'd' else if a.Hours? then 'h' else 'm')
      && (forall i :: 0 <= i < |s| - 1 ==> IsDigit(s[i]))
      && (|s| == 2 || s[0] != '0')
      && DecimalValue(s[..|s| - 1]) == a.n
  {
    match a
    case Blank => ""
    case JustNow => "now"
    case Days(n) => DecimalRoundTrip(n); assert (Decimal(n) + "d")[..|Decimal(n)|] == Decimal(n); Decimal(n) + "d"
    case Hours(n) => DecimalRoundTrip(n); assert (Decimal(n) + "h")[..|Decimal(n)|] == Decimal(n); Decimal(n) + "h"
    case Minutes(n) => DecimalRoundTrip(n); assert (Decimal(n) + "m")[..|Decimal(n)|] == Decimal(n); Decimal(n) + "m"
  }

  /** `toLowerCase` on the ASCII letters. */
  function LowerChar(c: char): char
  {
    if 'A' <= c <= 'Z' then (c as int - 'A' as int + 'a' as int) as char else c
  }

  function Lower(s: string): (r: string)
    ensures |r| == |s|
    ensures forall i :: 0 <= i < |s| ==> r[i] == LowerChar(s[i])
  {
    seq(|s|, i requires 0 <= i < |s| => LowerChar(s[i]))
  }

  /** `t` occurs in `s` starting at position `i`. */
  predicate OccursAt(s: string, t: string, i: int)
  {
    0 <= i <= |s| - |t| && s[i..i + |t|] == t
  }

  /** `s.includes(t)`. */
  predicate Includes(s: string, t: string)
  {
    exists i :: 0 <= i <= |s| && OccursAt(s, t, i)
  }

  /** The search callback: the other member's lower-cased name contains the lower-cased term
      (a chat without members has no other member and is dropped). */
  function KeepChat(userId: ObjectId, term: string): Chat -> bool
  {
    (chat: Chat) =>
      var other := GetSenderInfo(userId, Some(chat.members));
      other.Some? && Includes(Lower(other.value.name), Lower(term))
  }

  /** `filteredChats`. */
  function FilteredChats(chats: seq<Chat>, userId: ObjectId, term: string): (r: seq<Chat>)
  {
    Sequences.Filter(chats, KeepChat(userId, term))
  }

  /** The search keeps chats in their order, and keeps exactly those whose other member's
      name contains the term, ignoring letter case, each as often as it is listed. */
  lemma FilteredChatsSpec(chats: seq<Chat>, userId: ObjectId, term: string)
    ensures var r := FilteredChats(chats, userId, term);
      && Sequences.IsSubsequence(r, chats)
      && (forall i :: 0 <= i < |r| ==>
            var other := GetSenderInfo(userId, Some(r[i].members));
            other.Some? && Includes(Lower(other.value.name), Lower(term)))
      && (forall j ::
            (0 <= j < |chats| && |chats[j].members| > 0 &&
             Includes(Lower(GetSenderInfo(userId, Some(chats[j].members)).value.name), Lower(term)))
            ==> chats[j] in r)
      && (forall ch :: multiset(r)[ch] == if KeepChat(userId, term)(ch) then multiset(chats)[ch] else 0)
  {
    Sequences.FilterIsSubsequence(chats, KeepChat(userId, term));
    forall ch
      ensures multiset(FilteredChats(chats, userId, term))[ch] ==
        if KeepChat(userId, term)(ch) then multiset(chats)[ch] else 0
    {
      Sequences.FilterCount(chats, KeepChat(userId, term), ch);
    }
  }

  lemma LowerIdempotent(s: string)
    ensures Lower(Lower(s)) == Lower(s)
  {
  }

  /** Searching for a term or for its lower-cased form shows the same chats. */
  lemma SearchIgnoresCase(chats: seq<Chat>, userId: ObjectId, term: string)
    ensures FilteredChats(chats, userId, term) == FilteredChats(chats, userId, Lower(term))
  {
    LowerIdempotent(term);
    Sequences.FilterCongruent(chats, KeepChat(userId, term), KeepChat(userId, Lower(term)));
  }

  /** An empty search box hides no chat that has members. */
  lemma EmptySearchKeepsAll(chats: seq<Chat>, userId: ObjectId)
    ensures forall j :: 0 <= j < |chats| && |chats[j].members| > 0 ==> chats[j] in FilteredChats(chats, userId, "")
  {
    forall j | 0 <= j < |chats| && |chats[j].members| > 0
      ensures KeepChat(userId, "")(chats[j])
    {
      var name := Lower(GetSenderInfo(userId, Some(chats[j].members)).value.name);
      assert OccursAt(name, Lower(""), 0);
    }
  }

  /** The id of a chat's other member, the de-duplication key. */
  function OtherKey(userId: ObjectId): Chat -> Option<ObjectId>
  {
    (chat: Chat) =>
      match GetSenderInfo(userId, Some(chat.members))
      case None => None
      case Some(m) => Some(m.id)
  }

  /** The de-duplicating `filter`: a chat is kept when it is the first with its other member. */
  function DedupByOther(chats: seq<Chat>, userId: ObjectId): (r: seq<Chat>)
  {
    Sequences.DedupFirst(chats, OtherKey(userId))
  }

  /** Order is kept, no two kept chats share an other member, the first chat with each
      other member is kept, and kept chats are ordered by where their other member first
      appears. */
  lemma DedupByOtherSpec(chats: seq<Chat>, userId: ObjectId)
    ensures var r := DedupByOther(chats, userId);
      && Sequences.IsSubsequence(r, chats)
      && (forall a, b :: 0 <= a < b < |r| ==> OtherKey(userId)(r[a]) != OtherKey(userId)(r[b]))
      && (forall j :: 0 <= j < |chats| ==>
            chats[Sequences.IndexOfKey(chats, OtherKey(userId), OtherKey(userId)(chats[j]))] in r)
      && (forall a, b :: 0 <= a < b < |r| ==>
            Sequences.IndexOfKey(chats, OtherKey(userId), OtherKey(userId)(r[a])) <
            Sequences.IndexOfKey(chats, OtherKey(userId), OtherKey(userId)(r[b])))
  {
    Sequences.DedupFirstSpec(chats, OtherKey(userId));
  }

  /** The list the page renders: searched, then de-duplicated. Every chat in it has an other
      member, so reading that member's `_id` and `name` never fails. */
  lemma VisibleChatsHaveOtherMember(chats: seq<Chat>, userId: ObjectId, term: string)
    ensures forall i :: 0 <= i < |DedupByOther(FilteredChats(chats, userId, term), userId)| ==>
      GetSenderInfo(userId, Some(DedupByOther(FilteredChats(chats, userId, term), userId)[i].members)).Some?
  {
    var f := FilteredChats(chats, userId, term);
    var r := DedupByOther(f, userId);
    Sequences.DedupFirstSpec(f, OtherKey(userId));
    forall i | 0 <= i < |r|
      ensures GetSenderInfo(userId, Some(r[i].members)).Some?
    {
      var k := Sequences.IndexOfKey(f, OtherKey(userId), OtherKey(userId)(r[i]));
      assert f[k] == r[i];
    }
  }

  predicate HasChat(chats: seq<Chat>, id: ObjectId)
  {
    exists i :: 0 <= i < |chats| && chats[i].id == id
  }

  /** The `setChats` updater run after opening a chat: prepend it unless a chat with its id is
      already listed. */
  function AddChat(prev: seq<Chat>, data: Chat): (r: seq<Chat>)
    ensures HasChat(r, data.id)
    ensures HasChat(prev, data.id) ==> r == prev
    ensures !HasChat(prev, data.id) ==> r == [data] + prev
  {
    if HasChat(prev, data.id) then prev
    else
      assert ([data] + prev)[0] == data;
      [data] + prev
  }

  /** Running the updater twice (e.g. a repeated effect) lists the chat once. */
  lemma AddChatIdempotent(prev: seq<Chat>, data: Chat)
    ensures AddChat(AddChat(prev, data), data) == AddChat(prev, data)
  {
  }
}
