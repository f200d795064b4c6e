# UniConnect core, modelled in Dafny

UniConnect is a campus social network. Its backend is an Express server over MongoDB and a Redis cache; its frontend is a Next.js app with Redux slices. This project models the parts of it whose behaviour can be stated exactly:

- the group handlers: join requests, direct joins, deletion and the read-through cache (`GroupController`);
- the dashboard handlers: likes, comments, the connection-request lifecycle, the network and discover views, and profile updates (`DashboardController`);
- the notification store (`NotificationController`) and the client notification reducer (`NotificationSlice`);
- registration, e-mail verification and login (`AuthController`), and the bearer-token guard (`AuthMiddleware`);
- the Redis reconnect back-off (`RedisConfig`);
- the client reducers for auth, the chat window and the theme (`AuthSlice`, `ChatSlice`, `ThemeSlice`);
- the client components' state updates: the direct chat, the group chat, the assistant chat, the feed, the connections and discover views, the profile editor and the video-room lobby.

Modelling choices:

- Each database collection is a sequence of records kept in creation order. A query is a filter over that sequence. "Sort by `createdAt`" is the stored order, or its reverse; the creation clock is an argument, and the class invariant says stored creation times never decrease.
- The Redis cache is a map from key to an entry: the stored payload and its time-to-live in seconds. `get` is a map lookup, `setEx` a map update and `del` a key removal; the handlers' `setEx` calls are taken to exist on the client (see the GroupController lines under Left out). Entries do not expire over time in the model.
- Outside services are arguments of the operations that use them:
  - bcrypt is a `digest` function, so `compare` means `digest(plain) == hashed`;
  - JWT signing is `sign(id, days)` and verification is `verify(token)`;
  - `Math.random()` is a real in `[0, 1)`;
  - `Date.now()` is `now`;
  - uuid, database ids and upload URLs are string arguments;
  - mail delivery, database failure and socket presence are booleans.
- State that the source updates in place is a Dafny `class` whose methods state the whole new state. This covers the Redux slices, component state, the handlers' collections and the cache. Pure transforms are functions with lemmas beside them.
- Shared helpers are the JavaScript string and array operations the code relies on (`Strings`, `Lists`, `Optional`): `trim`, `split`, `join`, `startsWith`, `includes`, `toUpperCase`, the default string sort, and `filter(x => x !== id)`.

## Model

| member | source | states |
|---|---|---|
| GroupController.FormatUrl | backend/src/controllers/groupController.js:10-14 | An empty url gives "". A url starting with "http" is returned unchanged. Any other url is put after the base URL and a slash; an unset base renders as "undefined". |
| GroupController.HttpsIsHttp | backend/src/controllers/groupController.js:12 | Every url that starts with "https" already starts with "http", so the second test never decides anything. |
| GroupController.FormatUrlIdempotent | backend/src/controllers/groupController.js:10-14 | When the base URL is absolute, formatting an already formatted url changes nothing. |
| GroupController.ListKey | backend/src/controllers/groupController.js:82 | The cache key of a user's group list, `groups:list:<userId>`. |
| GroupController.GroupKey | backend/src/controllers/groupController.js:142 | The cache key of one group, `group:<groupId>`. |
| GroupController.RequestsKey | backend/src/controllers/groupController.js:255 | The cache key of a group's join requests, `group_requests:<groupId>`. |
| GroupController.MessagesKey | backend/src/controllers/groupController.js:312 | The cache key of a group's messages, `group_messages:<groupId>`. |
| GroupController.KeysDistinct | backend/src/controllers/groupController.js:82-312 | The four cache key families (`groups:list:`, `group:`, `group_requests:`, `group_messages:`) never collide with each other. Within one family, equal keys mean equal ids. |
| GroupController.Visible | backend/src/controllers/groupController.js:89-95 | The `$or` of the list query: public, or private with the caller's institute, or the caller is a member. |
| GroupController.VisibleGroups | backend/src/controllers/groupController.js:89-95 | Keeps exactly the groups that are public, or private with the caller's institute, or have the caller as a member: every kept group qualifies and every qualifying group is kept. |
| GroupController.VisibleChronological | backend/src/controllers/groupController.js:97 | Filtering keeps the store's creation order. |
| GroupController.ShapeGroup | backend/src/controllers/groupController.js:99-109 | One list entry: the image is formatted; `isMember` holds iff the caller is in `members`; `isAdmin` holds iff the caller is in `admins`. |
| GroupController.GroupListExact | backend/src/controllers/groupController.js:89-111 | The list answer. Every entry is a stored visible group, and every visible group appears. Each entry carries the caller's flags and the formatted image. |
| GroupController.GroupListNewestFirst | backend/src/controllers/groupController.js:97 | In a store kept in creation order, the list answer is newest first. |
| GroupController.ReplaceChronological | backend/src/controllers/groupController.js:170-171 | Saving a group in place keeps the store's creation order. |
| GroupController.Lookup | backend/src/controllers/groupController.js:159 | `findById`: `None` iff no group has the id; otherwise the first group with it. |
| GroupController.Requested | backend/src/controllers/groupController.js:170 | The requester is appended to `joinRequests`, once when absent before. Id, members, admins and creation time are unchanged. |
| GroupController.GroupMessages | backend/src/controllers/groupController.js:318-320 | Exactly the stored messages of the group, each kept or dropped by its group id alone. |
| GroupController.GroupMessagesAppend | backend/src/controllers/groupController.js:319 | Filtering a concatenation is the concatenation of the filtered parts, so the answer keeps the store's order. |
| GroupController.GroupMessagesSingle | backend/src/controllers/groupController.js:319 | A single message is kept iff it belongs to the group. With the append lemma this fixes the answer, its order and its count, on every store. |
| GroupController.OtherMessages | backend/src/controllers/groupController.js:375 | `deleteMany({ group })`: exactly the messages of other groups remain. |
| GroupController.OtherMessagesAppend | backend/src/controllers/groupController.js:375 | The deletion works piece by piece over a concatenation, so the survivors keep their order. |
| GroupController.OtherMessagesSingle | backend/src/controllers/groupController.js:375 | A single message survives iff it belongs to another group. With the append lemma this fixes the survivors, their order and their count. |
| GroupController.UnrelatedNotifications | backend/src/controllers/groupController.js:378 | `deleteMany({ relatedId })`: exactly the notifications not related to the group remain. |
| GroupController.UnrelatedNotificationsAppend | backend/src/controllers/groupController.js:378 | The deletion works piece by piece over a concatenation, so the survivors keep their order. |
| GroupController.UnrelatedNotificationsSingle | backend/src/controllers/groupController.js:378 | A single notification survives iff it is not related to the group. With the append lemma this fixes the survivors, their order and their count. |
| GroupController.OtherGroups | backend/src/controllers/groupController.js:381 | After deletion, exactly the groups with other ids remain. |
| GroupController.OtherGroupsAppend | backend/src/controllers/groupController.js:381 | The deletion works piece by piece over a concatenation, so the survivors keep their order. |
| GroupController.OtherGroupsSingle | backend/src/controllers/groupController.js:381 | A single group survives iff its id differs. With the append lemma this fixes the survivors, their order and their count. |
| GroupController.OtherGroupsChronological | backend/src/controllers/groupController.js:381 | Deleting a group keeps the remaining groups in creation order. |
| GroupController.JoinTwice | backend/src/controllers/groupController.js:281-304 | After a successful join, joining again gives 400 "Already a member", and the groups end exactly as the one join left them: the group found by id has the user appended to its members. |
| GroupController.RequestThenAccept | backend/src/controllers/groupController.js:154-247 | After a successful request, an acceptance by an admin leaves the requester a member, with no pending request. |
| GroupController.GroupIndex | backend/src/controllers/groupController.js:159 | `findById`: `None` iff no group has the id; otherwise the position of one that has it. |
| GroupController.GroupIndexUpdate | backend/src/controllers/groupController.js:170-171 | Saving a group in place under the same id does not change where any lookup lands. |
| GroupController.Handled | backend/src/controllers/groupController.js:214-233 | After handling, the requester is absent from `joinRequests` whatever the action. They are a member iff the action was "accept" or they were one already. They are never added twice, and every other member's count is unchanged. |
| GroupController.InviteCode | backend/src/controllers/groupController.js:51 | `slice(0, 8)`: a prefix of the uuid, eight characters long when the uuid has at least eight. |
| GroupController.DeleteKeys | backend/src/controllers/groupController.js:384-391 | The keys `deleteGroup` removes: the group's three keys and the deleter's list key. |
| GroupController.DeleteKeepsOtherLists | backend/src/controllers/groupController.js:385-391 | Deleting a group leaves every other user's cached group list in place, unchanged. Those lists keep the deleted group until their TTL ends. |
| GroupController.GroupService.CreateGroup | backend/src/controllers/groupController.js:17-74 | It fails with 500 when the icon upload fails, or when a private group's creator has no record. Otherwise it appends one group: the creator is its only admin and only member, its request list is empty, and its institute is the creator's when the group is private and null otherwise. The invite code is the uuid's first eight characters. The creator's list key is deleted, and the answer is 201 with the formatted image. |
| GroupController.GroupService.GetGroups | backend/src/controllers/groupController.js:77-120 | A cached list is answered as stored, and nothing changes. On a miss, a caller without a record gets 500. Otherwise the computed list is answered and cached with TTL 120. |
| GroupController.GroupService.GetGroupById | backend/src/controllers/groupController.js:128-150 | Never reads the cache. An unknown id gives 404 "Group not found". Otherwise the group is answered and `group:<id>` is written with TTL 1800. |
| GroupController.GroupService.JoinRequestNotices | backend/src/controllers/groupController.js:178-187 | One "GROUP_JOIN_REQUEST" notification per admin, in admin order: from the requester, related to the group, with the request message. |
| GroupController.GroupService.RequestToJoinGroup | backend/src/controllers/groupController.js:154-196 | Errors come in order: 404 for a missing group; 400 when the requester is a member or an admin; 400 when a request is pending. Each error changes nothing. On success the requester is appended to `joinRequests` and occurs there exactly once; `members` and `admins` are unchanged. Exactly `group:<id>` and `group_requests:<id>` are deleted, every admin is notified, and the answer is 200 with the group id. |
| GroupController.GroupService.HandleJoinRequest | backend/src/controllers/groupController.js:198-247 | Errors come in order: 404, then 403 for a caller who is not an admin, then 400 when no such request is pending. Each error changes nothing. Otherwise the group becomes `Handled`. "accept" also notifies the requester and deletes their list key. `group:<id>` and `group_requests:<id>` are always deleted. The answer is "Request <action>ed successfully". |
| GroupController.GroupService.GetGroupRequests | backend/src/controllers/groupController.js:249-278 | A cached request list is answered to any caller, before the admin check. On a miss the errors are 404, then 403 "Access denied. Admins only.". Otherwise the request list is answered and cached with TTL 300. |
| GroupController.GroupService.JoinGroup | backend/src/controllers/groupController.js:281-304 | There is no privacy check. A non-member is appended to `members`; exactly `group:<id>` and the user's list key are deleted; the answer is "Joined successfully". An existing member gets 400 "Already a member" and nothing changes. |
| GroupController.GroupService.ShapeMessages | backend/src/controllers/groupController.js:322-328 | `None` iff some message's sender has no record. Otherwise, each message with its sender's name and formatted picture, in order. |
| GroupController.GroupService.GetGroupMessages | backend/src/controllers/groupController.js:307-336 | A cached history is answered as stored, and nothing changes. On a miss, a missing sender gives 500. Otherwise the group's messages are answered and cached with TTL 60. |
| GroupController.GroupService.DeleteGroup | backend/src/controllers/groupController.js:361-399 | Errors: 404, then 403 "Only admins can delete the group", each changing nothing. Otherwise the group, its messages and its related notifications are removed. Exactly the group's three keys and the deleter's list key leave the cache. |
| DashboardController.StatusName | backend/src/models/Connection.js:7 | The stored status strings "pending", "accepted" and "rejected". |
| DashboardController.PostIndex | backend/src/controllers/dashboardController.js:54-74 | `findById` over posts: `None` iff no post has the id. |
| DashboardController.FindPair | backend/src/controllers/dashboardController.js:97-102 | The first row joining the two users in either direction; `None` iff there is none. |
| DashboardController.FindPairSymmetric | backend/src/controllers/dashboardController.js:97-102 | The pair lookup gives the same row whichever side asks. |
| DashboardController.FindPairAppended | backend/src/controllers/dashboardController.js:97-110 | A row created for a pair that had none is the row the next lookup for that pair finds. |
| DashboardController.WellFormedRemove | backend/src/controllers/dashboardController.js:134 | Deleting a row keeps one row per pair and distinct ids. |
| DashboardController.ConnectionIndex | backend/src/controllers/dashboardController.js:123 | `findById` over connection rows. |
| DashboardController.Counterpart | backend/src/controllers/dashboardController.js:160-163 | The other side of a row seen from one of its users. |
| DashboardController.Invitations | backend/src/controllers/dashboardController.js:147-152 | Exactly the pending rows addressed to the caller, each shaped as its id and its requester. |
| DashboardController.NetworkPeers | backend/src/controllers/dashboardController.js:154-167 | Exactly the other parties of the caller's accepted rows without self-loops. No entry is the caller. |
| DashboardController.Relationships | backend/src/controllers/dashboardController.js:182-184 | Exactly the rows with the caller on either side. |
| DashboardController.StatusMapDomain | backend/src/controllers/dashboardController.js:186-190 | A user has a status entry iff some relationship names them as the other party. |
| DashboardController.StatusMapLastWins | backend/src/controllers/dashboardController.js:186-190 | A user's entry is the status of the last relationship naming them: later rows overwrite. |
| DashboardController.BuildStatusMap | backend/src/controllers/dashboardController.js:186-190 | The `forEach` loop builds exactly the status map of the relationships. |
| DashboardController.StatusMapOf | backend/src/controllers/dashboardController.js:186-190 | The reference map: each relationship in turn sets its other party's entry. Its meaning is stated by StatusMapDomain and StatusMapLastWins. |
| DashboardController.SendTwice | backend/src/controllers/dashboardController.js:89-116 | After a successful request from a to b, a request from b to a is answered 400 "Request already pending". |
| DashboardController.Others | backend/src/controllers/dashboardController.js:192 | At most `limit` users, each a stored user other than the caller. |
| DashboardController.NotMe | backend/src/controllers/dashboardController.js:192 | `{ _id: { $ne: me } }`: every user other than the caller is kept and no other user is. |
| DashboardController.OthersFirst | backend/src/controllers/dashboardController.js:192 | The limited query is exactly the first `limit` users other than the caller, in stored order, or all of them when there are fewer. |
| DashboardController.DiscoverUsers | backend/src/controllers/dashboardController.js:177-211 | At most twenty users other than the caller. Each status is that user's relationship status, or "none" when there is none. |
| DashboardController.StripProtected | backend/src/controllers/dashboardController.js:238-241 | Removes "password", "email", "role" and "_id". Every other field passes through with its value. |
| DashboardController.WithoutProtected | backend/src/controllers/dashboardController.js:238-241 | Exactly the fields outside "password", "email", "role" and "_id", with their values. StripProtected computes it. |
| DashboardController.Overwrite | backend/src/controllers/dashboardController.js:244 | A plain-field update: the named fields take the new values and every other stored field is kept. |
| DashboardController.AsWrittenSetReachesProtected | backend/src/controllers/dashboardController.js:238-244 | As written, a protected field under a `$set` key of the body is stored with the body's value: the deletes do not reach it. |
| DashboardController.SetOperatorMakesAdmin | backend/src/controllers/dashboardController.js:238-244 | The body `{"$set": {"role": "admin"}}` turns a student's role into "admin". |
| DashboardController.CastUpdateKeepsProtected | backend/src/controllers/dashboardController.js:238-244 | With the protected fields removed from `$set` too, every protected field stays as stored, present iff it was. Without operator keys this is the update UpdateProfile performs. |
| DashboardController.DashboardService.ToggleLike | backend/src/controllers/dashboardController.js:50-68 | A missing post gives 404 and changes nothing. Otherwise the post's likes become `Toggle(likes, user)`: every occurrence is removed when present, and the id is appended otherwise. No other post changes. |
| DashboardController.DashboardService.AddComment | backend/src/controllers/dashboardController.js:70-85 | A missing post gives 404. Otherwise exactly one comment `{user, text}` is appended, and earlier comments and other posts are unchanged. |
| DashboardController.DashboardService.SendConnectionRequest | backend/src/controllers/dashboardController.js:89-116 | Self-connection gives 400. A row for the pair in either direction gives 400 with the message for its status. Otherwise one pending row is appended with the sender as requester. The rows stay one per unordered pair. |
| DashboardController.DashboardService.RespondToInvite | backend/src/controllers/dashboardController.js:118-141 | A missing row gives 404; a caller who is not the recipient gets 403; both change nothing. "accept" marks the row accepted, and any other action deletes it. |
| DashboardController.DashboardService.GetNetwork | backend/src/controllers/dashboardController.js:143-173 | The caller's invitations and network peers as above. |
| DashboardController.DashboardService.UpdateProfile | backend/src/controllers/dashboardController.js:232-251 | For a body of plain fields: the user's fields become `Overwrite(old fields, WithoutProtected(body))`, so no protected field changes. Other users are unchanged. An unknown user gets no answer document. Otherwise the answer is the first matching user's new fields without "password". |
| NotificationController.Mine | backend/src/controllers/notificationController.js:30 | Every notification of the caller is kept, and only those. |
| NotificationController.MineAppend | backend/src/controllers/notificationController.js:30 | The query keeps stored order: over two lists one after the other, it yields the first list's matches, then the second's. |
| NotificationController.MineSingle | backend/src/controllers/notificationController.js:30 | One notification is kept exactly when it is addressed to the caller. |
| NotificationController.MineChronological | backend/src/controllers/notificationController.js:30-31 | The caller's notifications keep creation order. |
| Lists.Reverse | backend/src/controllers/notificationController.js:31 | Same length; position i holds the element at the mirrored position. |
| Lists.ReverseMembers | backend/src/controllers/notificationController.js:31 | Reversal keeps exactly the same elements. |
| NotificationController.LatestFor | backend/src/controllers/notificationController.js:28-38 | At most twenty of the caller's notifications and no one else's: the last twenty in stored order, latest first, or all of them when there are fewer. |
| NotificationController.LatestNewestFirst | backend/src/controllers/notificationController.js:31 | In a store kept in creation order, the page is sorted by `createdAt` descending. |
| NotificationController.MarkedRead | backend/src/controllers/notificationController.js:75-78 | Every notification of the caller is read afterwards. All other notifications are untouched. Length and order are unchanged. |
| NotificationController.MarkedReadIdempotent | backend/src/controllers/notificationController.js:73-80 | Marking read twice is the same as marking read once. |
| NotificationController.MarkedReadLeavesNoneUnread | backend/src/controllers/notificationController.js:75-78 | After marking, none of the caller's notifications is unread. |
| NotificationController.NotificationStore.Save | backend/src/controllers/notificationController.js:7-13 | `Notification.create`: when the database works, the notification is appended and the store stays in creation order; otherwise nothing changes. |
| NotificationController.NotificationStore.CreateNotification | backend/src/controllers/notificationController.js:4-25 | When the save succeeds, exactly one notification is appended, and `new_notification` is emitted to the recipient's room iff a socket server is present. When the save fails, nothing is stored, nothing is emitted, and there is no result. |
| NotificationController.NotificationStore.GetNotifications | backend/src/controllers/notificationController.js:28-38 | The caller's latest twenty, newest first. |
| NotificationController.NotificationStore.SendNotificationApi | backend/src/controllers/notificationController.js:41-70 | 201 with the one appended notification, whose sender is the caller and whose recipient, type, message and link are the given ones. It is emitted only when a socket server is present. A failed save gives 500 "Failed to send notification". |
| NotificationController.NotificationStore.MarkRead | backend/src/controllers/notificationController.js:73-83 | The store becomes `MarkedRead` of the old store and the answer is success. |
| NotificationSlice.UnreadCount | frontend/src/redux/features/notificationSlice.js:12 | At most the number of items, and zero iff every item is read. |
| NotificationSlice.AllReadHasNoUnread | frontend/src/redux/features/notificationSlice.js:18-21 | After marking all read, nothing is unread. |
| NotificationSlice.UnreadCountPrepend | frontend/src/redux/features/notificationSlice.js:14-17 | Putting an item in front adds one to the count iff the item is unread. |
| NotificationSlice.NotificationState.constructor | frontend/src/redux/features/notificationSlice.js:3-6 | Starts empty with a zero count. |
| NotificationSlice.NotificationState.SetNotifications | frontend/src/redux/features/notificationSlice.js:10-13 | The items become the payload and the count becomes the payload's unread count. |
| NotificationSlice.NotificationState.AddNotification | frontend/src/redux/features/notificationSlice.js:14-17 | The payload goes first and the count goes up by one whatever its `isRead`. The count stays right only when the payload is unread; for a read payload it is one too high. |
| NotificationSlice.NotificationState.MarkAllRead | frontend/src/redux/features/notificationSlice.js:18-21 | Every item becomes read, in the same order and with the same bodies, and the count is zero. |
| NotificationSlice.MarkAllReadTwice | frontend/src/redux/features/notificationSlice.js:18-21 | A second `markAllRead` changes nothing. |
| AuthController.WithoutPassword | backend/src/controllers/authController.js:103-104 | The verify answer's user. Every field except the password is copied unchanged: id, name, username, institute, e-mail, role, the verified flag and both code fields. |
| AuthController.FindById | backend/src/controllers/authController.js:79 | `findById`: a found record is stored and has the id; `None` iff no record has it. |
| AuthController.Compare | backend/src/controllers/authController.js:90 | `bcrypt.compare`: the digest of the plain code equals the stored hash. |
| AuthController.IndexOfEmail | backend/src/controllers/authController.js:30-115 | `findOne({ email })`: the first record with the e-mail, or `None` iff there is none. |
| AuthController.IndexOfId | backend/src/controllers/authController.js:79 | `findById`: the first record with the id, or `None` iff there is none. |
| AuthController.CodeNumber | backend/src/controllers/authController.js:34 | `Math.floor(1000 + random * 9000)` is between 1000 and 9999. |
| AuthController.FourDigits | backend/src/controllers/authController.js:34 | `toString()` of that number is four decimal digits. |
| AuthController.FourDigitsInjective | backend/src/controllers/authController.js:34 | Different numbers give different codes. |
| AuthController.NewUser | backend/src/controllers/authController.js:42-51 | The new record is unverified. Its password compares with the given password, its code compares with the mailed code, and it expires at `now + 600000`. |
| AuthController.StoredBySchema | backend/src/models/User.js:4-18 | The record as the schema saves it: neither code field survives. |
| AuthController.CheckVerification | backend/src/controllers/authController.js:79-91 | The checks in order: missing user; already verified; `expires < now` (strict, so a code at the expiry instant passes); no stored code, where `compare` throws; digest mismatch. Each outcome holds exactly when every earlier check passes and its own fails. Acceptance holds iff all pass. |
| AuthController.VerifyFailsAsStored | backend/src/controllers/authController.js:85-90 | With the record as the schema stores it, no code verifies a new account: the compare throws. |
| AuthController.VerifyAcceptsMailedCode | backend/src/controllers/authController.js:42-91 | With the code fields kept, the mailed code verifies the new account until the expiry instant. |
| AuthController.VerifyRejectsLateCode | backend/src/controllers/authController.js:85-87 | After the ten minutes, the answer is "Code expired". |
| AuthController.AuthService.Register | backend/src/controllers/authController.js:25-72 | A taken e-mail gives 400 "User already exists" and stores nothing. A fresh e-mail with a taken username fails the save on the unique username index: 500, nothing stored, no mail. Otherwise one `NewUser` record is appended under the new id, and e-mails and usernames stay unique. The answer is 201 with the id when the mail goes out, and 500 when it does not (the record stays). |
| AuthController.AuthService.VerifyEmail | backend/src/controllers/authController.js:75-109 | 400 "User not found", then "User already verified", then "Code expired", then 500 when there is nothing to compare, then "Invalid code". On acceptance only that record changes: it is verified with both code fields cleared. The answer is 200 with the user without a password and a 30-day token. |
| AuthController.AuthService.Login | backend/src/controllers/authController.js:111-141 | 401 "Invalid email or password" unless the first user with the e-mail has a matching password. Otherwise 200 with id, name, username, e-mail, institute and a 7-day token, plus a `token` cookie lasting seven days. |
| AuthController.RegisterVerifyLogin | backend/src/controllers/authController.js:25-141 | With an e-mail and a username no stored user has, registering gives 201, the mailed code verifies with 200, a second verification gives 400 "User already verified", and the password then logs in with a cookie. |
| AuthMiddleware.TokenOf | backend/src/middlewares/authMiddleware.js:15 | `split(' ')[1]`: the token is exactly the second piece of the split, which holds no space; `None` iff the header has no space. |
| AuthMiddleware.SplitWithoutSpace | backend/src/middlewares/authMiddleware.js:15 | Splitting a text without the separator gives that text alone. |
| AuthMiddleware.Protect | backend/src/middlewares/authMiddleware.js:4-40 | "Not authorized, no token" when the header is missing or does not start with "Bearer". Then "token failed" when there is no second field or it does not verify. Then "user not found" when the id has no record. `next` runs iff all of these pass, with the first record of that id without its password. |
| AuthMiddleware.BearerHeaderToken | backend/src/middlewares/authMiddleware.js:10-15 | The token of "Bearer " followed by a token without spaces is that token. |
| AuthMiddleware.LoginTokenPasses | backend/src/middlewares/authMiddleware.js:18-23 | A login token whose verification gives back the user's id lets the request through as that user. The token is the one login signs (`authController.js` line 126). |
| RedisConfig.RetryDelay | backend/src/config/redis.js:7-10 | `min(times * 50, 2000)`: never above 2000, and either the cap or fifty per attempt. |
| RedisConfig.RetryDelayMonotonic | backend/src/config/redis.js:8 | Later attempts never wait less. |
| RedisConfig.RetryDelayShape | backend/src/config/redis.js:8 | Fifty per attempt up to attempt 40, and 2000 from attempt 40 on. |
| AuthSlice.AuthState.constructor | frontend/src/redux/features/authSlice.js:4-17 | Starts with the user read from storage in a browser and none otherwise, not loading, with no error and no success. |
| AuthSlice.AuthState.AuthStart | frontend/src/redux/features/authSlice.js:25-28 | Loading, no error, no success; the user is kept. |
| AuthSlice.AuthState.AuthSuccess | frontend/src/redux/features/authSlice.js:29-35 | The payload becomes the user in state and in storage; success, no error, not loading. |
| AuthSlice.AuthState.AuthFailure | frontend/src/redux/features/authSlice.js:36-40 | The payload becomes the error; not loading, no success; the user is kept. |
| AuthSlice.AuthState.Logout | frontend/src/redux/features/authSlice.js:42-47 | The user is cleared in state and storage; no success, no error; `isLoading` is untouched. |
| AuthSlice.AuthState.ResetAuthStatus | frontend/src/redux/features/authSlice.js:49-53 | The status flags are cleared and the user is kept. Every reducer keeps "success implies no error". |
| ChatSlice.ChatState.constructor | frontend/src/redux/features/chatSlice.js:3-6 | Closed, with no partner. |
| ChatSlice.ChatState.OpenChat | frontend/src/redux/features/chatSlice.js:12-15 | Open with the payload as partner. "Open iff partner" holds when the payload is not null. |
| ChatSlice.ChatState.CloseChat | frontend/src/redux/features/chatSlice.js:16-19 | Closed with no partner. |
| ChatSlice.CloseChatTwice | frontend/src/redux/features/chatSlice.js:16-19 | Closing twice equals closing once. |
| ThemeSlice.ThemeName | frontend/src/redux/features/themeSlice.js:13-15 | "dark" iff dark, and "light" otherwise. |
| ThemeSlice.ThemeState.constructor | frontend/src/redux/features/themeSlice.js:4 | Light at start, whatever storage holds. |
| ThemeSlice.ThemeState.ToggleTheme | frontend/src/redux/features/themeSlice.js:11-16 | The flag flips. In a browser, storage holds the new theme's name. |
| ThemeSlice.ThemeState.SetTheme | frontend/src/redux/features/themeSlice.js:18-20 | The flag becomes the payload and storage is not written. |
| ThemeSlice.ToggleTwice | frontend/src/redux/features/themeSlice.js:11-12 | Toggling twice restores the flag. |
| ChatWindow.RoomId | frontend/src/Components/ChatWindow.js:21-23 | The lexicographically smaller id, "_", then the larger one. |
| ChatWindow.RoomIdSymmetric | frontend/src/Components/ChatWindow.js:21-23 | Both users compute the same room. |
| ChatWindow.ChatWindowState.constructor | frontend/src/Components/ChatWindow.js:30-31 | The joined room is the pair's shared room. |
| ChatWindow.ChatWindowState.LoadHistory | frontend/src/Components/ChatWindow.js:34-36 | The fetched history replaces the list. |
| ChatWindow.ChatWindowState.ReceiveMessage | frontend/src/Components/ChatWindow.js:40-42 | An incoming message goes to the end of the history. |
| ChatWindow.ChatWindowState.SendMessage | frontend/src/Components/ChatWindow.js:55-78 | A blank input emits nothing and changes nothing. Otherwise it emits to the joined room, appends exactly one entry from the signed-in user, and clears the input. |
| ChatWindow.ChatWindowState.SetMessage | frontend/src/Components/ChatWindow.js:130 | Typing sets the input and leaves the history as it was. |
| GroupChatWindow.FileKind | frontend/src/Components/GroupChatWindow.js:47-48 | "pdf" when the MIME type contains "pdf". Otherwise a prefix of the MIME type without "/" that is followed by "/" or the end: the text before the first "/". |
| GroupChatWindow.MajorTypeUnique | frontend/src/Components/GroupChatWindow.js:47 | Only one prefix is the text before the first "/", so the kind of a non-pdf file is determined. |
| GroupChatWindow.AttachmentFields | frontend/src/Components/GroupChatWindow.js:39-50 | Without a file: "", "none", "". With a file: the url stays "", the name is the file's, and the type is the file's kind. |
| GroupChatWindow.GroupChatState.LoadHistory | frontend/src/Components/GroupChatWindow.js:19-24 | The fetched history replaces the message list; the draft text and file are kept. |
| GroupChatWindow.GroupChatState.ReceiveGroupMessage | frontend/src/Components/GroupChatWindow.js:27-29 | An incoming message is appended at the end. |
| GroupChatWindow.GroupChatState.HandleSend | frontend/src/Components/GroupChatWindow.js:35-64 | A blank text with no file does nothing. Otherwise one message is emitted with the sender, the group and the text, an empty url, and "none" and "" without a file or the file's kind and name with one. The text is cleared and the file dropped. The list is not touched. |
| GroupChatWindow.GroupChatState.SetInput | frontend/src/Components/GroupChatWindow.js:148-153 | Typing and picking a file set the text and the file, and leave the message list as it was. |
| ChatbotPage.Concat | frontend/src/app/chatbot/page.js:47-69 | The chunks joined in order. |
| ChatbotPage.ChatbotState.AppendChunk | frontend/src/app/chatbot/page.js:54-68 | Only the last message changes, and its content becomes the old content followed by the chunk. |
| ChatbotPage.ChatbotState.StreamChunks | frontend/src/app/chatbot/page.js:47-69 | After the read loop, only the last message has changed, and its content is followed by all the chunks in order. |
| ChatbotPage.ChatbotState.PushPrompt | frontend/src/app/chatbot/page.js:28-31 | The prompt is appended as a user message, the input is cleared and streaming starts. |
| ChatbotPage.ChatbotState.ReceiveReply | frontend/src/app/chatbot/page.js:33-74 | Without a readable body nothing is appended. Otherwise one AI message holding all the chunks in order is appended. Streaming ends either way. |
| ChatbotPage.ChatbotState.HandleSend | frontend/src/app/chatbot/page.js:25-75 | A send happens iff the input is not blank and nothing is streaming. A send appends the user message and clears the input. When a body is readable, it also appends an AI message whose content is all the chunks in order. Streaming is off at the end either way. |
| ChatbotPage.ChatbotState.SetInput | frontend/src/app/chatbot/page.js:154 | Typing sets the input and leaves the messages and the streaming flag as they were. |
| Feed.PostCardState.constructor | frontend/src/Components/Feed.js:12-13 | The likes and comments start as the post's, or empty when missing. |
| Feed.PostCardState.HandleLike | frontend/src/Components/Feed.js:21-27 | The likes become `Toggle(likes, me)`, and "liked" flips. |
| Feed.PostCardState.SubmitComment | frontend/src/Components/Feed.js:42-58 | A blank text sends nothing and changes nothing. A server reply replaces the comments and clears the text. |
| Feed.PostCardState.SetCommentText | frontend/src/Components/Feed.js:174 | Typing sets the comment text and leaves the likes and comments as they were. |
| Feed.FeedState.LoadPosts | frontend/src/Components/Feed.js:200-213 | The fetched posts replace the list. |
| Feed.FeedState.OnNewPost | frontend/src/Components/Feed.js:216-218 | A new post goes first and the existing order is kept. |
| ClientJson.ArrayOrEmpty | frontend/src/Components/Views/ConnectionsView.js:33-36 | `Array.isArray(x) ? x : []`. |
| ConnectionsView.WithoutInvite | frontend/src/Components/Views/ConnectionsView.js:50 | Removes exactly the invites with that id: every other invite is kept, and only those. |
| ConnectionsView.WithoutInviteAppend | frontend/src/Components/Views/ConnectionsView.js:50 | The filter keeps order: over two lists one after the other, it yields the first list's survivors, then the second's. |
| ConnectionsView.WithoutInviteSingle | frontend/src/Components/Views/ConnectionsView.js:50 | One invite is dropped exactly when it has that id. |
| ConnectionsView.WithoutInviteIdempotent | frontend/src/Components/Views/ConnectionsView.js:50 | Removing twice equals removing once. |
| ConnectionsView.FindInvite | frontend/src/Components/Views/ConnectionsView.js:53 | The first invite with the id; `None` iff there is none. |
| ConnectionsView.ConnectionsState.LoadNetwork | frontend/src/Components/Views/ConnectionsView.js:31-37 | A field that is not an array becomes empty. |
| ConnectionsView.ConnectionsState.HandleResponse | frontend/src/Components/Views/ConnectionsView.js:48-58 | The invite leaves the list. On accept, its user goes first in the connections when the invite exists and has a user. On reject, the connections are unchanged. |
| DiscoverView.MarkPending | frontend/src/Components/Views/DiscoverView.js:47-51 | Sets "pending" on exactly the users with the id. The length is kept and everyone else is untouched. |
| DiscoverView.MarkPendingIdempotent | frontend/src/Components/Views/DiscoverView.js:47-51 | Marking twice equals marking once. |
| DiscoverView.DiscoverState.LoadUsers | frontend/src/Components/Views/DiscoverView.js:28-33 | A non-array answer gives an empty list. |
| DiscoverView.DiscoverState.HandleConnect | frontend/src/Components/Views/DiscoverView.js:44-92 | The list is marked pending, and so is the selected user when the id matches. The "connection_request" notification is requested only when the connect succeeded. |
| DiscoverView.DiscoverState.SelectUser | frontend/src/Components/Views/DiscoverView.js:132 | Opening a profile (or closing it, with None) sets the selected user and leaves the list as it was. |
| EditProfileModal.SkillsText | frontend/src/Components/EditProfileModal.js:17 | The skills joined with ", ", or "" when there are none. |
| EditProfileModal.InitialForm | frontend/src/Components/EditProfileModal.js:13-20 | Every form key is present. Headline, location and about default to "", and the flags to false. |
| EditProfileModal.TrimAll | frontend/src/Components/EditProfileModal.js:41 | Each piece trimmed, in the same positions. |
| EditProfileModal.NonEmpty | frontend/src/Components/EditProfileModal.js:41 | Exactly the non-empty pieces are kept: none is dropped and none is added. |
| EditProfileModal.NonEmptyAppend | frontend/src/Components/EditProfileModal.js:41 | The filter keeps order: over two lists one after the other, it yields the first list's non-empty pieces, then the second's. |
| EditProfileModal.NonEmptySingle | frontend/src/Components/EditProfileModal.js:41 | One piece is kept exactly when it is non-empty. |
| EditProfileModal.ParseSkills | frontend/src/Components/EditProfileModal.js:41 | Every submitted skill is non-empty, has no surrounding whitespace and holds no comma. |
| EditProfileModal.ParseSkillsAppend | frontend/src/Components/EditProfileModal.js:41 | Text with a comma parses as the skills before it, then the skills after it, in typed order. |
| EditProfileModal.ParseSkillsPiece | frontend/src/Components/EditProfileModal.js:41 | Text without a comma is one skill, its trim, or none when it is blank. With the previous row this fixes the parse of every text. |
| EditProfileModal.ParseSkillsRoundTrip | frontend/src/Components/EditProfileModal.js:17-41 | Submitting the unchanged skills text gives back the original skills when each is non-empty, trimmed and comma-free. |
| EditProfileModal.Payload | frontend/src/Components/EditProfileModal.js:39-42 | A body is built iff the skills field holds text. |
| EditProfileModal.WithSkills | frontend/src/Components/EditProfileModal.js:39-42 | Replacing the skills field adds or drops no field, and leaves every other field as it was. |
| EditProfileModal.PayloadFields | frontend/src/Components/EditProfileModal.js:39-42 | A built body has the form's keys and the parsed skills. Every other field is the form's own. |
| EditProfileModal.InitialPayloadSkills | frontend/src/Components/EditProfileModal.js:13-42 | Submitting the form as first built returns the profile's own skills, or none when it has none, provided each skill is non-empty, trimmed and comma-free. |
| EditProfileModal.EditProfileState.HandleChange | frontend/src/Components/EditProfileModal.js:24-30 | The named field becomes `checked` for a checkbox and `value` otherwise; every other field is unchanged. |
| EditProfileModal.EditProfileState.HandleSubmit | frontend/src/Components/EditProfileModal.js:33-70 | It sends the payload. A good answer means updated; a bad one alerts "Failed to update: " and the message, or "Unknown error". Loading ends in every case. |
| RoomLobby.Pick | frontend/src/app/room/page.js:13 | `Math.floor(r * 16)` is an index into the alphabet. |
| RoomLobby.CodeOf | frontend/src/app/room/page.js:10-15 | Six characters, each from "ABCDEF0123456789". |
| RoomLobby.GenerateRoomCode | frontend/src/app/room/page.js:10-15 | The loop builds exactly `CodeOf` of the draws. |
| RoomLobby.EveryCodeReachable | frontend/src/app/room/page.js:10-15 | Every six-character code over the alphabet comes out of some draws. |
| RoomLobby.RoomPath | frontend/src/app/room/page.js:21 | The path `/room/<code>?name=<username>` both buttons navigate to. |
| RoomLobby.RoomPathInjective | frontend/src/app/room/page.js:21 | For codes without "?", the path determines the code and the name: different rooms or names give different paths. |
| RoomLobby.HandleCreate | frontend/src/app/room/page.js:17-22 | An empty name alerts "Please enter your name!". Otherwise it navigates to "/room/" + code + "?name=" + name. |
| RoomLobby.HandleJoin | frontend/src/app/room/page.js:24-29 | The name is checked first, then the code. Then it navigates with the code in upper case. |
| RoomLobby.JoinGeneratedCode | frontend/src/app/room/page.js:13-28 | Joining with a generated code goes to exactly that code's room: upper-casing changes nothing. |
| Strings.Trim | frontend/src/Components/EditProfileModal.js:41 | `trim()`: the text without leading or trailing whitespace, cut out of the original. |
| Strings.TrimIdempotent | frontend/src/Components/EditProfileModal.js:41 | Trimming twice equals trimming once. |
| Strings.BlankIffAllSpace | frontend/src/Components/ChatWindow.js:57 | `!text.trim()` holds iff every character is whitespace. |
| Strings.Split | frontend/src/Components/EditProfileModal.js:41 | `split` on one character: at least one piece, and no piece holds the separator. |
| Strings.SplitAppend | frontend/src/Components/EditProfileModal.js:41 | Splitting two texts joined by the separator gives the first text's pieces, then the second's. |
| Strings.Join | frontend/src/Components/EditProfileModal.js:17 | `join`: a single piece is joined into itself. |
| Strings.StartsWith | backend/src/middlewares/authMiddleware.js:12 | `startsWith`: the prefix is no longer than the string and equals its start. |
| Strings.Contains | frontend/src/Components/GroupChatWindow.js:48 | `includes`: the text occurs at some position. |
| Strings.ToUpper | frontend/src/app/room/page.js:28 | `toUpperCase` on ASCII: same length, each lower-case letter mapped to its capital and every other character kept. |
| Strings.LexLess | frontend/src/Components/ChatWindow.js:22 | The default sort's order: code points compared from the left, a proper prefix first. |
| Strings.SplitJoin | frontend/src/Components/EditProfileModal.js:17-41 | Joining the pieces of a split with its separator gives the text back. |
| Strings.SplitOfJoin | frontend/src/Components/EditProfileModal.js:17-41 | Splitting a join on a separator its pieces do not contain gives the pieces back. |
| Strings.LexLessTotal | frontend/src/Components/ChatWindow.js:22 | The default sort order is total on distinct strings. |
| Lists.Toggle | backend/src/controllers/dashboardController.js:58-61 | When the id is present, the result is the list with every occurrence removed. Otherwise it is the list with the id appended at the end. So the id is present afterwards iff it was absent before, and then exactly once. |
| Lists.ToggleTwiceWhenAbsent | frontend/src/Components/Feed.js:23-27 | Liking and unliking from a state without the id restores the list. |
| Lists.ToggleTwice | frontend/src/Components/Feed.js:23-27 | Two toggles from any state leave the other ids in order. The id is then present once, at the end, when it was present before, and absent otherwise. |
| Lists.RemoveAll | backend/src/controllers/groupController.js:231-233 | `filter(x => x !== id)`: the id is absent afterwards, every other element is kept and nothing else is, and the length drops by the id's count. |
| Lists.Map | frontend/src/Components/EditProfileModal.js:41 | `map`: same length, and each element is the function applied to the element at that place. |
| Lists.MapAppend | frontend/src/Components/EditProfileModal.js:41 | Mapping two lists one after the other is mapping each. |
| Lists.Take | backend/src/controllers/dashboardController.js:192 | `limit(n)`: `n` elements, or all when there are fewer, each the element at that place. |
| Lists.TakeCons | backend/src/controllers/dashboardController.js:192 | Taking one more from a list with one more in front keeps that element first. |
| Lists.RemoveAllIdempotent | backend/src/controllers/groupController.js:231-233 | Removing an id twice equals removing it once. |

## Left out

- Strings.LexLess: compares Unicode code points, while JavaScript's default sort compares UTF-16 code units. The two orders differ only for characters above U+FFFF. The ids RoomId sorts are ASCII ObjectId strings, where they agree.
- Schema validation is not modelled; the model follows what the controllers read and write. The schemas disagree with the controllers in these places:
  - `models/Group.js` declares `admin` and has no `joinRequests`.
  - The Notification `type` enum lacks "GROUP_JOIN_REQUEST" and "GROUP_APPROVED", and the schema has no `relatedId`. Outside the model, those creates would fail.
  - The User schema drops the verification code fields; see Findings.
  - The User schema has no `about`, `skills`, `openToWork`, `openToCompete` or `profilePicture` fields, which the controllers and components write or read; see the UpdateProfile line below.
- Cache expiry over time is not modelled. TTLs are stored but entries never expire. Redis errors are not modelled separately: the code has no separate handler for them, so they would reach the handler's 500.
- `populate` is not modelled. Populated references appear as ids, or as the fields the handler reads. Referenced users who no longer exist are not dropped from the populated lists. Admin profile pictures in the group answers are not formatted.
- `getGroupMedia` (backend/src/controllers/groupController.js:339-359) is not part of this model.
- Malformed ids (Mongoose cast errors), and the 500s that database failures cause, are not modelled. The exceptions are the branches named in the table.
- Request fields are taken to be strings. JavaScript's loose handling of a missing field (`undefined` in a query) is not modelled.
- bcrypt salting is not modelled: `digest` is deterministic, which is what "compare succeeds iff hashes match" needs.
- `toUpperCase` is modelled for ASCII letters only.
- Concurrency: each handler is one atomic step. Socket fan-out is not modelled either; only the state change an event causes is modelled.
- GroupController.GroupService.GetGroupMessages: the message store is taken to be in creation order, so the `sort({ createdAt: 1 })` keeps stored order; GroupMessagesAppend and GroupMessagesSingle prove that the answer is the group's messages in stored order. Nothing in this model adds messages.
- GroupController.GroupService.DeleteGroup: `findByIdAndDelete` removes one group. The model removes every group with that id, which is the same when ids are unique.
- DashboardController.DashboardService.UpdateProfile: updates every record with that id, which is the same when ids are unique.
- DashboardController.DashboardService.UpdateProfile: stores every key of the update that is not protected, as the controller asks. Under Mongoose's strict mode the `findByIdAndUpdate` at backend/src/controllers/dashboardController.js:244 would drop the keys that backend/src/models/User.js:4-18 does not declare (`about`, `skills`, `openToWork`, `openToCompete`, `profilePicture`); the model does not filter by the schema.
- DashboardController.DashboardService.UpdateProfile: takes a body of plain fields. A body with `$`-prefixed operator keys is modelled only for `$set`, by CastUpdateAsWritten (see Findings). Operators such as `$unset` or `$inc`, which can also clear or change protected fields, are not modelled.
- DashboardController.DashboardService.SendConnectionRequest: the new row's id is taken to be fresh; the database guarantees this.
- NotificationController.NotificationStore.CreateNotification: its clock reading is taken to be no earlier than any stored notification (a `NotBefore` precondition). The same holds for GroupController.GroupService.CreateGroup.
- Feed.PostCardState.SubmitComment: a reply that is not a list of comments is not modelled.
- The notification controller uses no cache, so creating a notification or marking one read invalidates no cache key.
- Cache errors are not caught separately: a failing Redis call throws into the handler's catch, which answers 500.
- GroupController.GroupService.GetGroups: backend/src/controllers/groupController.js:114 calls `redisClient.setEx`. The model assumes a client with that method. backend/src/config/redis.js builds an `ioredis` client, whose command methods are lower case (`setex`). If that client has no `setEx`, the call throws into the handler's catch, so every cache miss answers 500 and nothing is cached. The ioredis library is not part of this model.
- GroupController.GroupService.GetGroupById: backend/src/controllers/groupController.js:142 calls `redisClient.setEx`. The model assumes a client with that method. backend/src/config/redis.js builds an `ioredis` client, whose command methods are lower case (`setex`). If that client has no `setEx`, the call throws into the handler's catch, so every found group answers 500 and nothing is cached. The ioredis library is not part of this model.
- GroupController.GroupService.GetGroupRequests: backend/src/controllers/groupController.js:271 calls `redisClient.setEx`. The model assumes a client with that method. backend/src/config/redis.js builds an `ioredis` client, whose command methods are lower case (`setex`). If that client has no `setEx`, the call throws into the handler's catch, so every cache miss answers 500 and nothing is cached. The ioredis library is not part of this model.
- GroupController.GroupService.GetGroupMessages: backend/src/controllers/groupController.js:330 calls `redisClient.setEx`. The model assumes a client with that method. backend/src/config/redis.js builds an `ioredis` client, whose command methods are lower case (`setex`). If that client has no `setEx`, the call throws into the handler's catch, so every cache miss answers 500 and nothing is cached. The ioredis library is not part of this model.

## Findings

| source | as written | input that shows it | evidently intended | confidence | as-written member | corrected member |
|---|---|---|---|---|---|---|
| backend/src/models/User.js:4-18 | The User schema declares no `verificationCode` or `verificationCodeExpires`. In strict mode, the save at backend/src/controllers/authController.js:53 drops both fields, so `bcrypt.compare(code, undefined)` at line 90 throws and verification answers 500. | Register any new account, then verify it with the mailed code. | The mailed code verifies the account within ten minutes. | not executed | AuthController.VerifyFailsAsStored | AuthController.VerifyAcceptsMailedCode |
| backend/src/controllers/dashboardController.js:238-244 | The handler deletes only the four top-level keys before `findByIdAndUpdate`. Mongoose reads `$`-prefixed keys of the body as update operators, so the fields under `$set` are written past the deletes. | A body `{"$set": {"role": "admin"}}` from a signed-in student. | No profile update changes "password", "email", "role" or "_id". | not executed | DashboardController.SetOperatorMakesAdmin | DashboardController.CastUpdateKeepsProtected |
