# LocalAid core, modelled in Dafny

LocalAid is a neighbourhood help-exchange web application. Users post requests and offers of help, find posts near them, and chat with each other. Most of it is framework glue. This project models the parts that hold logic of their own and proves what they promise:

- **Conversation directory and message ledger** (`backend/controllers/chatController.js`, module `ChatController`). A `ChatStore` class holds the `conversations` and `messages` collections as sequences, in natural (insertion) order. `AccessConversation` gets or creates the conversation for a pair of users. `SendMessage` validates and stores a message, then sets the conversation's `latestMessage`. `NotifyMembers` is the loop that computes who is pushed a "message received" event. `FetchChats` and `AllMessages` are the two read-only queries.
- **Post store rules** (`backend/models/postModel.js` and `backend/controllers/postController.js`, modules `PostModel` and `PostController`). The `Post` datatype has its enumerations and defaults. `Cast` is Mongoose's cast-and-validate step on save. `BuildQuery` and `GetPosts` turn the query parameters into a radius in metres, an owner exclusion and a newest-first order. A `PostStore` class has `CreatePost` and `DeletePost`; `DeletePost` has three outcomes: 404, 401, or the post is removed. MongoDB's spherical `$near` test is a parameter `within(origin, position, metres)`, so nothing is assumed about it.
- **Client-side list helpers** (`frontend/src/pages/ChatPage.jsx` and `frontend/src/pages/Profile.jsx`, modules `ChatPage` and `Profile`). These are pure functions over sequences of records:
  - picking a chat's other member;
  - the "time ago" label;
  - the case-insensitive search;
  - first-occurrence de-duplication;
  - the add-chat updater;
  - the Map-based contact de-duplication;
  - the fulfilment submission and its optimistic update;
  - the delete filter;
  - the post counters.

`Common` holds the shared types. `Sequences` holds the generic list facts the source relies on: `filter`, `findIndex`, a sort on a numeric key, and keep-first de-duplication.

Where the intended behaviour and the code disagree, the model follows the code:

- The schema's post status is `open | closed` (`postModel.js:29`). The profile page writes `'fulfilled'` and counts `'pending'`. Each module uses its own file's values.
- The conversation lookup uses `$all`. It tests that both users are members, not that the member set is exactly the pair.
- `getPosts` has no type or text-search filter.
- A non-owner delete gets 401.
- Messages are listed without an explicit sort, so they come back in natural order.
- `sendMessage` with a well-formed id that names no conversation is handled as follows:
  - `Message.create` has already stored the message.
  - The `latestMessage` update matches nothing.
  - Reading `members` of the missing conversation throws, so the reply is 400.
  - The stored message stays.
  
  `SendMessage` models this as written.
- `sendMessage` does not check that the caller is a member of the conversation. The model does not check it either.

One exception goes the other way. The recipient test in `sendMessage` (`chatController.js:92`) never excludes the sender as written. `SendMessage` and `NotifyMembers` model the intended comparison of id values instead. The code as written is modelled by `RecipientsAsWritten`, `AsWrittenPushesEveryMember` and `AsWrittenEchoesToSender`. See "## Findings".

Request fields that JavaScript tests for truthiness are `Option` values, where `None` stands for absent, `null` or `""`. `Number(...)` of a body field is a `JsNumber`, which may be `NaN`. Ids are `nat`. Timestamps are integer milliseconds.

## Model

| member | source | states |
|---|---|---|
| PostModel.Cast | backend/models/postModel.js:3-51 | Saving succeeds exactly when these conditions hold: `user` is given; `title`, `description` and `category` are non-empty; `type` is `request` or `offer`; `status` is absent or `open`/`closed`; `location.type` is absent or `Point`; `coordinates` is given and every entry is a number. A saved post is well formed. It keeps the given values, and its status is `Closed` only when `closed` was given, so the default is `Open`. Its location type is `Point`, and `createdAt` = `updatedAt` = the save time. A failed save reports at least one path. |
| PostController.BuildQuery | backend/controllers/postController.js:9-24 | There is a proximity filter exactly when both `lat` and `lng` are given. Its point is [lng, lat] and its radius is `RadiusMetres(dist)`. The owner exclusion is `excludeId`. |
| PostController.GetPostsSpec | backend/controllers/postController.js:3-34 | Every returned post is stored and within the radius of [lng, lat] when both are given. No returned post is owned by `excludeId`. Every matching stored post is returned as many times as it is stored, and nothing else is. Results are ordered by `createdAt`, newest first. |
| PostController.GetPostsReply | backend/controllers/postController.js:3-34 | Gives 500 and no posts (the body is the error message) exactly when both `lat` and `lng` are given and MongoDB rejects the `$near` query: the longitude is outside [-180, 180], the latitude is outside [-90, 90], or `dist` is negative. Otherwise it gives 200 with the posts `GetPostsSpec` describes. |
| PostController.NoLocationNoProximity | backend/controllers/postController.js:9 | Without both `lat` and `lng`, and without `excludeId`, every stored post is returned. |
| PostController.PostStore.CreatePost | backend/controllers/postController.js:36-58 | Gives 201 exactly when the document validates and the `2dsphere` index (`postModel.js:53`) accepts its position: longitude in [-180, 180] and latitude in [-90, 90]. Otherwise it gives 500 and stores nothing. A created post is the document `Cast` builds, with the next id, and it is appended. So it keeps the given title, description, type, category and address. Its owner is the caller, its status is `Open`, its coordinates are [longitude, latitude], and both timestamps are the save time. The store invariant is kept: unique ids, well-formed posts, positions in range. |
| PostController.PostStore.DeletePost | backend/controllers/postController.js:60-77 | Gives 404 exactly when no post has the id, and 401 exactly when the post exists but the caller does not own it; in both cases the store is unchanged. Otherwise it gives 200 and the store becomes the old posts without that id. The store invariant (unique ids) is kept. |
| ChatController.FindPair | backend/controllers/chatController.js:18-30 | Returns the first conversation, in natural order, that has both users as members, or reports that none has. |
| ChatController.FindPairSymmetric | backend/controllers/chatController.js:18-22 | The lookup gives the same answer whichever user asks. |
| ChatController.FindPairAfterCreate | backend/controllers/chatController.js:31-37 | After appending [a, b] where no conversation held the pair, the lookup finds it for (a, b) and for (b, a). |
| ChatController.ChatStore.AccessConversation | backend/controllers/chatController.js:6-45 | Gives 400 and creates nothing exactly when `userId` is missing or is the caller's id. Ids are compared as canonical lower-case strings; see "## Left out". If a conversation holds both users, the first one is returned and nothing is created. Otherwise exactly one conversation with members [caller, target] is appended and returned. Messages never change. The store invariant is kept: conversation ids are unique, and every conversation is between two different users. |
| ChatController.ChatStore.AccessTwice | backend/controllers/chatController.js:18-41 | Two calls in a row for the same pair return the same conversation, whether the second comes from the same side or the other. At most one conversation is created. |
| ChatController.ChatStore.SendMessage | backend/controllers/chatController.js:62-100 | Gives 400 and stores nothing without a conversation id or with neither text nor image. Otherwise it stores one message whose sender is the caller, and `AllMessages` for that conversation gains it at the end. If the conversation exists, the reply is 200, its `latestMessage` names the new message, no other conversation changes, and the members other than the sender are pushed to. Each member of the conversation other than the sender gets exactly one push, and the sender gets none. If it does not exist, the reply is 400 with no push, and the message stays stored. |
| ChatController.NotifyMembers | backend/controllers/chatController.js:91-94 | The loop pushes to exactly the members whose id differs from the sender's, in member order. |
| ChatController.RecipientsCount | backend/controllers/chatController.js:91-94 | The sender is never pushed to. Every other member is pushed to as often as it is listed, so exactly once when members are distinct. |
| ChatController.RecipientsOfPair | backend/controllers/chatController.js:91-94 | In a conversation of two different users, as `accessConversation` creates them, each member other than the sender is pushed to exactly once and the sender never is. |
| ChatController.AsWrittenPushesEveryMember | backend/controllers/chatController.js:92 | Under `==` on separately populated ObjectId objects, no member matches the sender, so every member is pushed to. |
| ChatController.AsWrittenEchoesToSender | backend/controllers/chatController.js:92 | For members [7, 9] and sender 7, the code as written pushes to 7 and 9. Comparing id values pushes to 9 only. |
| ChatController.FetchChatsSpec | backend/controllers/chatController.js:47-60 | Returns exactly the conversations that have the caller as a member, each as often as it is stored, ordered by `updatedAt` with the latest first. |
| ChatController.AllMessagesSpec | backend/controllers/chatController.js:102-111 | Returns exactly the messages whose `conversationId` is the requested id, in stored order, as a subsequence of all messages. |
| ChatController.AllMessagesAfterAppend | backend/controllers/chatController.js:104 | Storing a message adds it at the end of its own conversation's listing and leaves every other listing unchanged. |
| ChatPage.GetSenderInfo | frontend/src/pages/ChatPage.jsx:55-58 | Returns null exactly for missing or empty members. Otherwise it returns a member of the list: the first whose id differs from the user's, or `members[0]` when every id equals the user's. |
| ChatPage.TimeAgo | frontend/src/pages/ChatPage.jsx:60-72 | Returns '' exactly for an empty date. An unparseable date gives "now". Otherwise: "Nd" exactly when at least a day has passed, with N the number of whole days; else "Nh" exactly when at least an hour has passed, with N whole hours; else "Nm" exactly when at least a minute has passed, with N whole minutes; else "now". |
| ChatPage.FutureIsNow | frontend/src/pages/ChatPage.jsx:63-71 | A date in the future is labelled "now". |
| ChatPage.Label | frontend/src/pages/ChatPage.jsx:68-71 | The text is the count in decimal digits followed by `d`, `h` or `m`. There is no leading zero, so 0 is written `0` and nothing else starts with `0`. Reading the digits back gives the count. The other texts are "now" and ''. |
| ChatPage.FilteredChatsSpec | frontend/src/pages/ChatPage.jsx:74-77 | The search result is an order-preserving subsequence of the chats. It keeps exactly the chats whose other member's lower-cased name contains the lower-cased term, each as many times as it is listed. |
| ChatPage.SearchIgnoresCase | frontend/src/pages/ChatPage.jsx:76 | A term and its lower-cased form select the same chats. |
| ChatPage.EmptySearchKeepsAll | frontend/src/pages/ChatPage.jsx:74-77 | An empty term hides no chat that has members. |
| ChatPage.DedupByOtherSpec | frontend/src/pages/ChatPage.jsx:112-116 | The de-duplicated list keeps order. No two kept chats share an other-member id, and the first chat for each other member is kept. Kept chats are ordered by where their other member first appears. |
| ChatPage.VisibleChatsHaveOtherMember | frontend/src/pages/ChatPage.jsx:110-118 | Every chat that survives search and de-duplication has an other member, so the renderer's `._id` and `.name` reads are defined. |
| ChatPage.AddChat | frontend/src/pages/ChatPage.jsx:40-43 | Afterwards a chat with the new id is listed. The chat is prepended exactly when no chat had its `_id`; otherwise the list is unchanged. |
| ChatPage.AddChatIdempotent | frontend/src/pages/ChatPage.jsx:40-43 | Applying the updater twice equals applying it once. |
| Profile.Contacts | frontend/src/pages/Profile.jsx:46-48 | Each chat gives its member whose id differs from the user's, else its first member. A chat without members makes the whole step fail. |
| Profile.MapSet | frontend/src/pages/Profile.jsx:50 | Setting a known key replaces its value in place. Setting a new key appends it. |
| Profile.UniqueContactsSpec | frontend/src/pages/Profile.jsx:50 | The unique contacts have no repeated `_id`, and every input id is present. Each entry is the last contact given for its id. Entries are ordered by where their ids first occur. |
| Profile.FetchContacts | frontend/src/pages/Profile.jsx:41-56 | Fails exactly when some chat has no members. Otherwise the contacts have distinct ids and include every chat's other member. Each listed contact is the last contact some chat gives for its id, so nothing else is listed. Contacts are ordered by where their ids first occur. |
| Profile.MarkFulfilledSpec | frontend/src/pages/Profile.jsx:76-78 | The optimistic update keeps the length and every post with another id. Posts with the target id get status 'fulfilled' and `fulfilledBy` = the helper, and keep their id and title. |
| Profile.SubmitFulfillment | frontend/src/pages/Profile.jsx:64-90 | With no selected helper there is no request and no state change. A request is sent exactly when a helper and a target post are set, and it names that post and helper. State changes only when the server accepts: the posts are updated optimistically and the modal is reset. |
| Profile.RemovePostSpec | frontend/src/pages/Profile.jsx:133 | The delete filter removes every post with the id and keeps every other post, in order and with its multiplicity. |
| Profile.HandleDelete | frontend/src/pages/Profile.jsx:123-138 | A request is sent exactly when the user confirms. The posts change only when it is also accepted, and then they become the delete filter's result. |
| Profile.ComputeStats | frontend/src/pages/Profile.jsx:144-148 | total = number of posts, and completed + active ≤ total. |
| Profile.FulfilCountsOnce | frontend/src/pages/Profile.jsx:76-78 | After the optimistic update the total is unchanged. The completed count grows by the number of target posts that were not yet 'fulfilled'. |

## Left out

- Image uploads (`backend/routes/uploadRoutes.js`) are left out. They are buffering and calls to a foreign image host.
- Socket.IO rooms, `setup`/`join chat`/typing relays and delivery are left out. Only the recipient list computed in `sendMessage` is modelled.
- MongoDB's spherical `$near` distance is left out. It is a parameter `within`, so floating-point geometry is not interpreted. The index's and `$near`'s range checks on coordinates and on `$maxDistance` are modelled.
- `populate` is left out: the model returns stored records, not expanded ones. Password-field exclusion is left out too.
- ChatController.ChatStore.AccessConversation: assumes `userId` arrives as the canonical lower-case hex string of an id. In the source the self-chat guard (`chatController.js:11`) compares `toString()` of the caller's id with the raw string, but `new mongoose.Types.ObjectId(userId)` (line 16) also accepts upper-case hex. So the caller's own id in upper case passes the guard, and `$all: [A, A]` (line 20) then matches the caller's first conversation with anyone, or creates a conversation [A, A] (line 33). The model answers 400 there, and its store invariant (two different members per conversation) relies on that assumption.
- A malformed ObjectId string is not modelled. In `accessConversation` it would throw outside the `try` (lines 15-16). In `deletePost` and `excludeId` it would cause a cast error (500). Ids are `nat`.
- A non-numeric `lat`, `lng` or `dist` (which gives `NaN`) in `getPosts` is not modelled. Those parameters are `Option<real>`.
- Database failures unrelated to the request are left out: a failed `Conversation.create` (400), and errors in `fetchChats` and `allMessages`. They are I/O failures. The `getPosts` 500 caused by a rejected `$near` query is modelled by `GetPostsReply`.
- conversationModel.js and messageModel.js are not part of this model. Bumping `updatedAt` when `latestMessage` is set assumes timestamps are enabled on conversations. Message validation is assumed to pass once the handler's own guard passes.
- The find-then-create race in `accessConversation` and other concurrency are left out. Calls are sequential.
- `fulfillPost`, `getMyPosts` and `getTrendSummary` are left out. Their routes import them, but the controller does not define them, so there is no source for them.
- Rendering, geolocation, `localStorage`, `window.confirm`, HTTP calls and alerts are left out. Confirmation and server outcomes are boolean parameters. The current time is a parameter.
- `toLowerCase` is modelled on ASCII letters only. Unicode case mapping is left out.
- PostModel.Cast: states that a failed save reports at least one path, not which paths it reports.
- ChatController.NotifyMembers: computes who is pushed to, not whether delivery succeeds (pushes are best-effort).

## Findings

| source | as written | input that shows it | evidently intended | confidence | as-written member | corrected member |
|---|---|---|---|---|---|---|
| backend/controllers/chatController.js:92 | `user._id == message.sender._id` compares two different ObjectId objects with `==`. That compares object identity, so it never holds, and the sender is pushed their own message too. | A (id 7) sends in the conversation of A and B (id 9): pushes go to 7 and 9. | Compare id values (`.equals` or `toString()`) and push to 9 only. | medium, not executed | ChatController.AsWrittenEchoesToSender | ChatController.RecipientsCount |
