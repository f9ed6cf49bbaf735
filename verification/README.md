# Web chat backend — a Dafny model

The system is a multi-tenant chat backend. Users belong to workspaces (tenants). They open direct, group and admin chat rooms, keep contact and block lists, and register devices for push notifications. Messages travel over a Socket.IO connection and over REST.

This project models the logic at the centre of that backend and proves properties of it.

**The real-time session state** (`src/sockets/chatSocket.js`):
- the per-connection sliding-window rate limiter;
- the three process-wide registries: user to socket, room to active users, room to typing users;
- the room-access and message-ownership guards;
- every event handler's effect on rooms, messages, registries and the emitted-event log: connect, join, leave, send, auto-read, typing, mark read, reactions, edit, delete, cleanup, disconnect and the stale-user sweep.

**The documents and their methods**:
- messages (`src/models/message.model.js`): status, receipts, soft delete;
- users (`src/models/user.model.js`): contacts, blocked users, refresh-token sessions, `toJSON`;
- the declarative room schema (`src/models/room.model.js`).

**The REST controllers**, as decision tables and document updates:
- chat rooms and messages (`chat.controller.js`);
- contacts, blocking and listings (`contact.controller.js`);
- push-token registration and pruning (`notification.controller.js`);
- workspaces, slugs, themes and invites (`tenant.controller.js`);
- registration, login, phone verification, password reset, invite sign-up and profile updates (`auth.controller.js`).

**The utilities**:
- the validators (`src/utils/validators.js`);
- the Cloudinary URL parser, retry arithmetic and error mapping (`src/utils/cloudinary.js`);
- the authentication middleware (`src/middlewares/auth.middleware.js`);
- the error classes (`src/utils/error.js`).

## How the model is organised

There is one Dafny module per source file. `Common` holds the JavaScript string and array semantics the others share: `trim`, `toLowerCase`, UTF-16 `length`, `slice` with negative indexes, `parseInt(x) || d`, `filter` and `Map` de-duplication.

Code that updates objects in place becomes classes with `modifies` clauses, and each class method is proved against a function of the state before the call:
- `User`, `Message`, `Tenant`, `RateLimiter`;
- `ChatServer`, holding the socket registries and in-memory collections;
- `ChatStore`, holding the REST collections.

Pure code becomes datatypes, functions and lemmas. Database collections are maps or sequences in their natural order. Time is an integer number of milliseconds passed in as `now`. Ids are strings compared the way the source compares `toString()` values.

A request field that is missing, or that JavaScript treats as falsy, is `""`, or `None` where a default parameter tells the two apart. A validator that throws is the reply `Threw(message)`. A document the schema would refuse to save is `SchemaRejected(path)`.

## Model

| member | source | states |
|---|---|---|
| Common.ToLower | src/controller/contact.controller.js:36 | `toLowerCase()`: same length, each character lowered, no upper-case ASCII letter left |
| Common.Trim | src/controller/auth.controller.js:62 | `trim()`: the result is the input with leading and trailing JavaScript whitespace removed, and it neither starts nor ends with whitespace |
| Common.TrimIdempotent | src/controller/auth.controller.js:579-580 | trimming a trimmed name changes nothing |
| Common.TrimEmptyIffBlank | src/controller/chat.controller.js:293 | a name trims to "" exactly when it is all whitespace |
| Common.Utf16Length | src/utils/validators.js:19 | JavaScript `length` counts UTF-16 code units: between one and two per character, exactly one when no character is outside the basic plane |
| Common.Utf16LengthAppend | src/utils/validators.js:19 | the length of a concatenation is the sum of the lengths |
| Common.ReplaceFirst | src/middlewares/auth.middleware.js:8 | `replace(string, string)` replaces the first occurrence only, and leaves a string without one unchanged |
| Common.ReplaceFirstOfPrefix | src/middlewares/auth.middleware.js:8 | replacing a leading pattern strips exactly that prefix |
| Common.Filter | src/models/user.model.js:236-238 | `Array.filter`: keeps exactly the elements satisfying the predicate, as a sub-multiset of the input |
| Common.FilterAppend | src/models/user.model.js:236-238 | filtering distributes over concatenation |
| Common.FilterSnoc | src/models/user.model.js:236-238 | filtering a list with one more element at the end adds that element exactly when it passes |
| Common.FilterCounts | src/models/user.model.js:236-238 | filtering keeps every passing value exactly as often as it occurs and no failing value at all |
| Common.MapSeq | src/controller/chat.controller.js:497 | `Array.map`: one result per element, in order, each the function applied to that element |
| Common.DedupKeepFirst | src/controller/chat.controller.js:306 | `[...new Set(xs)]`: no duplicates, the same elements, and the first element kept first |
| Common.DedupOfDistinct | src/controller/chat.controller.js:306 | de-duplicating a list without duplicates returns it unchanged |
| Common.LastN | src/controller/auth.controller.js:155 | `slice(-n)`: the last n elements, or all when there are fewer |
| Common.JsSlice | src/models/user.model.js:192 | `Array.slice` with JavaScript's clamping of negative and out-of-range bounds |
| Common.ParseIntOr | src/controller/chat.controller.js:99-100 | `parseInt(x) \|\| d`: a missing or zero value falls back to the default |
| Common.PageCount | src/controller/chat.controller.js:163 | `Math.ceil(total / limit)`: the fewest pages of `limit` that hold `total` items, zero exactly when there are none |
| Errors.Raise | src/utils/error.js:5-35 | each subclass fixes a 4xx status; the default message is used only when no message is passed |
| Errors.KindOfStatus | src/utils/error.js:13-35 | the status identifies the error class: 400, 401, 403 and 404 map back to the class raising them, nothing else does |
| Errors.StatusOf | src/utils/error.js:5-35 | every error class carries a client-error status, 400 exactly for validation, 401 for unauthorized, 403 for forbidden and 404 for not found |
| Validators.IsValidEmail | src/utils/validators.js:4-7 | accepts exactly the strings the e-mail pattern matches |
| Validators.EmailRegexIff | src/utils/validators.js:5 | the pattern matches exactly the strings with word-run local part, '@', and a dotted domain ending in a 2-3 character suffix |
| Validators.RegexMatchHasShape | src/utils/validators.js:5 | every match of the pattern has that shape |
| Validators.ShapeMatchesRegex | src/utils/validators.js:5 | every string of that shape matches the pattern |
| Validators.DomainPatternIff | src/utils/validators.js:5 | the domain part of the pattern, characterised both ways |
| Validators.WordsPatternIff | src/utils/validators.js:5 | the `\w+([.-]?\w+)*` part of the pattern, characterised both ways |
| Validators.CleanPhone | src/utils/validators.js:12 | only digits and '+' survive the cleaning |
| Validators.IsValidPhone | src/utils/validators.js:9-16 | accepts exactly a non-empty input whose cleaned form is an optional '+' and 10 to 15 digits; then it has 10 to 15 digits |
| Validators.ValidPhoneDigits | src/utils/validators.js:14 | a cleaned phone matching the pattern carries 10 to 15 digits |
| Validators.DigitsOfCleaned | src/utils/validators.js:12 | stripping non-digits after cleaning gives the same digits as stripping them from the input |
| Validators.DigitsOnly | src/controller/auth.controller.js:45 | `replace(/\D/g, '')`: only digits, never longer than the input |
| Validators.IsValidPassword | src/utils/validators.js:18-20 | true exactly when the password has at least 6 UTF-16 code units |
| Validators.IsValidObjectId | src/utils/validators.js:22-24 | exactly 24 hexadecimal digits |
| Validators.ValidateEmail | src/utils/validators.js:26-30 | throws "Email is required" for a missing e-mail, "Invalid email format" for a non-matching one, accepts exactly the matching ones |
| Validators.ValidatePassword | src/utils/validators.js:32-36 | throws the "required" then the "at least 6 characters" message; accepts exactly the passwords of 6 or more code units |
| Validators.ValidatePhone | src/utils/validators.js:38-42 | accepts a missing phone or a valid one (then 10 to 15 digits), and throws "Invalid phone number format" otherwise |
| AuthMiddleware.ExtractToken | src/middlewares/auth.middleware.js:6-8 | the cookie token wins when non-empty; otherwise the header with its first "Bearer " removed |
| AuthMiddleware.VerifyJwt | src/middlewares/auth.middleware.js:4-53 | 401 "token missing" exactly when no token, 401 invalid exactly when verification fails, 401 when the user no longer exists, otherwise the decoded user is passed on |
| AuthMiddleware.BearerHeaderToken | src/middlewares/auth.middleware.js:8 | a "Bearer " header yields the token after it |
| AuthMiddleware.CookieWins | src/middlewares/auth.middleware.js:6-8 | with a cookie token present the header is ignored |
| AuthMiddleware.DeletedUserRejected | src/middlewares/auth.middleware.js:31-41 | a valid token for a deleted user is rejected with 401 |
| AuthMiddleware.RequireRole | src/middlewares/auth.middleware.js:58-78 | 401 exactly without a user, 403 exactly when the role is not listed, passes exactly when it is |
| AuthMiddleware.RequireRoleMonotone | src/middlewares/auth.middleware.js:69 | allowing more roles never rejects a user who passed |
| AuthMiddleware.Guard | src/middlewares/auth.middleware.js:4-78 | `verifyJWT` then `requireRole`: passes exactly when both do, and a 403 means authentication succeeded |
| UserModel.FirstContact | src/models/user.model.js:252-254 | the index of the first contact with that user id, or none when no contact has it |
| UserModel.GetContact | src/models/user.model.js:252-254 | `getContact`: a contact of that user when one exists, none exactly when none does |
| UserModel.GetContactByPhone | src/models/user.model.js:245-247 | `getContactByPhone`: a contact with that phone, or none when no contact has it |
| UserModel.DisplayNameOr | src/models/user.model.js:224 | the contact name when non-empty, else the user's name |
| UserModel.ContactAdded | src/models/user.model.js:212-230 | an existing contact leaves the list unchanged; otherwise exactly one contact is appended; the user is then a contact; uniqueness is kept |
| UserModel.ContactRemoved | src/models/user.model.js:235-240 | the user is no longer a contact; every other contact stays exactly as often as it occurred, and no other entry appears |
| UserModel.ContactRemovedSnoc | src/models/user.model.js:235-240 | removal works entry by entry in stored order: a trailing entry is kept exactly when it is not the user's, so the kept contacts keep their order |
| UserModel.RemoveUndoesAdd | src/models/user.model.js:212-240 | removing after adding is the same as removing |
| UserModel.FavoriteSet | src/models/user.model.js:297-314 | only that user's contact changes, and only its favourite flag |
| UserModel.BlockAdded | src/models/user.model.js:259-273 | the user is then blocked; an existing block leaves the list unchanged; no other block is lost |
| UserModel.BlockRemoved | src/models/user.model.js:278-283 | the user is then unblocked, every other block is kept, nothing new is blocked |
| UserModel.BlockIdempotent | src/models/user.model.js:259-273 | blocking twice is blocking once |
| UserModel.LiveTokens | src/models/user.model.js:186-188 | exactly the unexpired, unrevoked tokens |
| UserModel.CleanedTokens | src/models/user.model.js:183-196 | the newest live tokens, in order: the last five of the live tokens (all of them when there are fewer), so every token kept is live and from the list |
| UserModel.TokenAdded | src/models/user.model.js:319-339 | the newest live tokens, in order, then the new one last: the last four live tokens (all of them when there are fewer), so at most 5 tokens |
| UserModel.CleanupAfterAdd | src/models/user.model.js:183-196 | the save hook does not change a list `addRefreshToken` just produced |
| UserModel.CleanupIdempotent | src/models/user.model.js:183-196 | cleaning twice is cleaning once |
| UserModel.VerifyToken | src/models/user.model.js:344-352 | true exactly when some live token has that value |
| UserModel.RevokeFirst | src/models/user.model.js:357-363 | only the first matching token is marked revoked, and nothing changes when none matches |
| UserModel.RevokeFirstAt | src/models/user.model.js:357-363 | the record stamped is the one at the first index that matches; with no match the list is unchanged |
| UserModel.TokenRevoked | src/models/user.model.js:357-363 | `revokeRefreshToken`: the first record with that token, and only it, gets `revokedAt`; a token held by no record changes nothing |
| UserModel.AgentRevoked | src/models/user.model.js:392-398 | `revokeSessionByAgent`: the first record from that user agent, and only it, gets `revokedAt`; an agent with no record changes nothing |
| UserModel.RevokedTokenFails | src/models/user.model.js:344-363 | with distinct token values, a revoked token no longer verifies |
| UserModel.RevokeLeavesDuplicate | src/models/user.model.js:357-363 | with a duplicated value, revoking one copy leaves the token valid |
| UserModel.AllRevoked | src/models/user.model.js:368-373 | every token is marked revoked at the given time |
| UserModel.AllRevokedFails | src/models/user.model.js:344-373 | after revoking all, no token verifies |
| UserModel.ActiveSessions | src/models/user.model.js:378-387 | one session per live token, each unexpired |
| UserModel.NoSessionsAfterRevokeAll | src/models/user.model.js:368-387 | after revoking all, no session is active |
| UserModel.ToJson | src/models/user.model.js:403-409 | the public view keeps the identity, role, status, contacts and blocks |
| UserModel.ToJsonHidesSecrets | src/models/user.model.js:403-409 | the public view does not depend on the password, refresh tokens or verification code |
| UserModel.User.constructor | src/models/user.model.js:3-66 | a new document has the schema defaults: role USER, status ACTIVE, unverified phone, empty lists |
| UserModel.User.AddContact | src/models/user.model.js:212-230 | the document changes only in its contacts, which become `ContactAdded` of the old ones |
| UserModel.User.RemoveContact | src/models/user.model.js:235-240 | only the contacts change, to `ContactRemoved` |
| UserModel.User.MarkContactAsFavorite | src/models/user.model.js:297-303 | only the contacts change, the contact marked favourite |
| UserModel.User.UnmarkContactAsFavorite | src/models/user.model.js:308-314 | only the contacts change, the contact unmarked |
| UserModel.User.BlockUser | src/models/user.model.js:259-273 | only the block list changes, to `BlockAdded` |
| UserModel.User.UnblockUser | src/models/user.model.js:278-283 | only the block list changes, to `BlockRemoved` |
| UserModel.User.AddRefreshToken | src/models/user.model.js:319-339 | only the refresh tokens change, to `TokenAdded`: the newest live tokens, in order, then the new one |
| UserModel.User.RevokeRefreshToken | src/models/user.model.js:357-363 | only the refresh tokens change, the first match revoked |
| UserModel.User.RevokeAllRefreshTokens | src/models/user.model.js:368-373 | only the refresh tokens change, all revoked |
| UserModel.User.RevokeSessionByAgent | src/models/user.model.js:392-398 | only the refresh tokens change, the agent's first session revoked |
| UserModel.User.PreSave | src/models/user.model.js:183-196 | the save hook changes only the refresh tokens, to `CleanedTokens`: the newest live tokens, in order |
| MessageModel.ParseStatus | src/models/message.model.js:49-53 | a status name parses to the status printed with that name, and no other name parses |
| MessageModel.StatusNameRoundTrip | src/models/message.model.js:49-53 | every status survives printing and parsing |
| MessageModel.Readers | src/controller/chat.controller.js:497 | the reader ids, one per receipt, in order (the shared `map` projection `MapSeq`) |
| MessageModel.NewMessage | src/models/message.model.js:3-92 | a new message has the schema defaults: status `sending`, not edited or deleted, no receipts or reactions, unread |
| MessageModel.MarkedDelivered | src/models/message.model.js:131-137 | only a `sending` message becomes `delivered`, stamped with the time; nothing else changes; the status never moves back |
| MessageModel.MarkedReadBy | src/models/message.model.js:140-151 | a first reading appends one receipt and sets `read`; a repeated one changes nothing; the reader has then read it; the status never moves back |
| MessageModel.SoftDeleted | src/models/message.model.js:154-159 | the message is deleted, with time and deleter, and nothing else changes |
| MessageModel.Active | src/models/message.model.js:162-164 | exactly the messages not deleted |
| MessageModel.MarkedReadByIdempotent | src/models/message.model.js:140-151 | marking read twice by the same user is marking once |
| MessageModel.MarkedReadByKeepsUnique | src/models/message.model.js:140-151 | no reader ever holds two receipts |
| MessageModel.StatusNeverRegresses | src/models/message.model.js:131-159 | any sequence of deliveries, readings and deletions keeps the status rank, the unique readers and the read state |
| MessageModel.Message.constructor | src/models/message.model.js:3-92 | the document is `NewMessage` |
| MessageModel.Message.MarkAsDelivered | src/models/message.model.js:131-137 | the document becomes `MarkedDelivered` of the old one |
| MessageModel.Message.MarkAsReadBy | src/models/message.model.js:140-151 | the document becomes `MarkedReadBy` of the old one |
| MessageModel.Message.SoftDelete | src/models/message.model.js:154-159 | the document becomes `SoftDeleted` of the old one |
| RoomModel.ParseRoomType | src/models/room.model.js:8-12 | a room type name parses to the type printed with that name, and no other name parses |
| RoomModel.RoomTypeRoundTrip | src/models/room.model.js:10 | every room type survives printing and parsing |
| RoomModel.RoomTypeOrDefault | src/models/room.model.js:11 | a missing type defaults to `ADMIN_USER` |
| RoomModel.TenantRequiredExactly | src/models/room.model.js:13-20 | a tenant is required exactly for `ADMIN_USER` and `GROUP` rooms |
| RoomModel.NewParticipant | src/models/room.model.js:22-38 | a participant without a role gets `MEMBER`, which the schema allows |
| RoomModel.ParticipantIds | src/models/room.model.js:24-27 | the participant ids, one per participant, in order (the shared `map` projection `MapSeq`) |
| RoomModel.NewRoom | src/models/room.model.js:3-62 | a new room has the schema defaults: empty unread counts, not archived, no last message |
| RoomModel.AsWrittenImpliesValid | src/models/room.model.js:32-36 | every room the role enum as written accepts is accepted by the corrected enum |
| RoomModel.InitiatorRefusedAsWritten | src/models/room.model.js:34 | a room with an `INITIATOR` participant fails the role enum as written |
| RoomModel.ParticipantRefusedAsWritten | src/models/room.model.js:34 | a room with a `PARTICIPANT` participant fails the role enum as written |
| RoomModel.TenantlessRooms | src/models/room.model.js:16-19 | a valid room without a tenant is a direct or admin chat |
| RoomModel.UnreadOf | src/controller/chat.controller.js:125 | `unreadCount.get(user) \|\| 0` |
| RoomModel.UnreadCleared | src/controller/chat.controller.js:582-583 | only the reader's count is removed, so it reads 0; every other count and field is kept |
| RateLimiting.RateLimitFor | src/sockets/chatSocket.js:8-15 | exactly the six limited events have a limit, each over a one-minute window |
| RateLimiting.InWindow | src/sockets/chatSocket.js:40 | exactly the timestamps younger than the window |
| RateLimiting.AfterCheck | src/sockets/chatSocket.js:32-49 | a refused or unlimited event leaves the record alone; an accepted one stores the pruned list plus now; other events are untouched |
| RateLimiting.CheckKeepsBounded | src/sockets/chatSocket.js:42-47 | no event ever stores more timestamps than its limit |
| RateLimiting.AcceptedIsRecorded | src/sockets/chatSocket.js:46-47 | an accepted request is stored as the newest timestamp |
| RateLimiting.RateLimiter.constructor | src/sockets/chatSocket.js:27-30 | a limiter starts with no history |
| RateLimiting.RateLimiter.Check | src/sockets/chatSocket.js:32-49 | answers whether fewer than `limit` requests fall in the window, and updates the history as `AfterCheck` |
| RateLimiting.RateLimiter.Clear | src/sockets/chatSocket.js:51-53 | forgets all history |
| RateLimiting.BurstStep | src/sockets/chatSocket.js:32-49 | inside one window, a check succeeds exactly while fewer than `limit` requests are stored |
| RateLimiting.Burst | src/sockets/chatSocket.js:32-49 | in a burst inside one window, the i-th request is accepted exactly when fewer than `limit` came before it |
| RateLimiting.TwentyFirstSendRefused | src/sockets/chatSocket.js:9 | twenty sends in a minute pass and the twenty-first is refused |
| SocketGuards.VerifyRoomAccess | src/sockets/chatSocket.js:61-91 | a missing room is refused; the universal roles always pass; others pass exactly when they are participants |
| SocketGuards.MemberScan | src/sockets/chatSocket.js:74-81 | true exactly when some participant has the user's id |
| SocketGuards.AccessMonotone | src/sockets/chatSocket.js:61-91 | adding a participant never revokes access |
| SocketGuards.EmptyRefGrantsNothing | src/sockets/chatSocket.js:75 | a participant entry without a user id grants access to nobody |
| SocketGuards.VerifyMessageOwnership | src/sockets/chatSocket.js:96-102 | a missing message is refused; otherwise it passes exactly for its sender |
| Cloudinary.UploadSegmentAt | src/utils/cloudinary.js:211 | an `/image/upload/`, `/video/upload/` or `/raw/upload/` segment starts exactly here |
| Cloudinary.VersionEnd | src/utils/cloudinary.js:211 | the optional `v<digits>/` segment: a 'v', digits, then '/' |
| Cloudinary.LazyStop | src/utils/cloudinary.js:211 | the lazy `(.*?)` stops at the first '?' or at the end, without crossing a line break |
| Cloudinary.LastDot | src/utils/cloudinary.js:215 | the position of the last '.', or none |
| Cloudinary.StripExtension | src/utils/cloudinary.js:215 | only the final `.ext` is removed: the result is the input or a prefix ending just before a '.' |
| Cloudinary.ExtractPublicIdFromUrl | src/utils/cloudinary.js:206-226 | an empty url has no public id |
| Cloudinary.NoSegmentNoPublicId | src/utils/cloudinary.js:211-221 | a url without an upload segment has no public id |
| Cloudinary.StripFinalExtension | src/utils/cloudinary.js:215 | `base.ext` loses exactly `.ext` |
| Cloudinary.StripWithoutDot | src/utils/cloudinary.js:215 | an id without a '.' is kept whole |
| Cloudinary.ExtractFromDeliveryUrl | src/utils/cloudinary.js:206-226 | a delivery url `host/<type>/upload/[v<n>/]id.ext[?query]` yields exactly `id` |
| Cloudinary.ResourceTypeOf | src/utils/cloudinary.js:249-251 | `video` exactly when the url contains `/video/`, else `raw` exactly when it contains `/raw/`, else `image` |
| Cloudinary.ResourceTypeFollowsSegment | src/utils/cloudinary.js:249-251 | a video upload url is destroyed as a video, a raw one as raw |
| Cloudinary.BackoffDelay | src/utils/cloudinary.js:164-170 | the delay is capped at 10000 ms; 1000 ms after the first attempt, 2000 ms after the second |
| Cloudinary.BackoffMonotone | src/utils/cloudinary.js:164-170 | later retries never wait less |
| Cloudinary.PerformUploadAsWritten | src/utils/cloudinary.js:108-178 | as written: a missing file retries forever with 500 ms delays and never counts an attempt; with a file, at most 3 attempts and the first accepted one wins |
| Cloudinary.PerformUpload | src/utils/cloudinary.js:108-178 | corrected: at most 3 attempts, a missing file gives up after delays of 1000 and 2000 ms, the first accepted attempt wins |
| Cloudinary.DeleteFromCloudinary | src/utils/cloudinary.js:232-276 | a result exactly when a non-empty public id was extracted and the destroy call answered |
| Cloudinary.FilterCountsSuccesses | src/utils/cloudinary.js:295 | `results.filter(r => r.success).length` is the success count |
| Cloudinary.DeleteMultipleFromCloudinary | src/utils/cloudinary.js:281-296 | one result per url, in order, each recording whether its deletion succeeded; no errors; the success count is the number of successes |
| Cloudinary.HandleCloudinaryError | src/utils/cloudinary.js:301-362 | API status 400, 403, 404 and 429 are kept, any other API status gives 500; without one, ENOENT gives 400, ENOMEM 413, timeout 408, anything else 500 |
| SocketState.Emit | src/sockets/chatSocket.js:107-126 | an emit appends exactly one event to the log and changes nothing else |
| SocketState.RawRoom | src/sockets/chatSocket.js:265-266 | a room is found exactly when it exists |
| SocketState.Populated | src/sockets/chatSocket.js:75-80 | populating participants keeps one entry per participant, empty for a user that no longer exists |
| SocketState.PopulatedRoom | src/sockets/chatSocket.js:404 | a populated room is found exactly when it exists |
| SocketState.WithReceipt | src/sockets/chatSocket.js:293 | `$push readBy`: one receipt appended, nothing else changed, the reader has read the message |
| SocketState.ReceiptsPushed | src/sockets/chatSocket.js:290-294 | `updateMany`: exactly the listed messages gain the receipt, the others are unchanged |
| SocketState.UnreadIds | src/sockets/chatSocket.js:282-288 | exactly the room's messages from others that the user has not read |
| SocketState.GroupOf | src/sockets/chatSocket.js:298-305 | the group of that sender, or none when it has none |
| SocketState.SentIdsIsFilter | src/sockets/chatSocket.js:298-305 | a sender's group is the filter of the ids by that sender |
| SocketState.SenderGroupsCorrect | src/sockets/chatSocket.js:296-305 | grouping by sender gives one group per sender, in first-seen order, holding exactly that sender's ids in order |
| SocketState.SenderMap | src/sockets/chatSocket.js:299-300 | each message maps to its sender |
| SocketState.ReadNotices | src/sockets/chatSocket.js:307-315 | one `messages_read` notice per sender group, carrying that group's ids |
| SocketState.JoinRoomSpec | src/sockets/chatSocket.js:259-338 | `join_room`: a missing room id and a denied access each emit one error to the socket and change nothing else; a join never touches the socket map, the typing sets, the room order or the users |
| SocketState.JoinRoomEffects | src/sockets/chatSocket.js:259-338 | a granted join makes the user active in the room, adds a receipt to exactly the unread messages from others, leaves no unread message from others, and clears the user's unread count |
| SocketState.JoinRoomShape | src/sockets/chatSocket.js:259-338 | a granted join changes the active users, the messages and the room exactly as stated, and nothing else |
| SocketState.JoinRoomPartialFailure | src/sockets/chatSocket.js:296-337 | when a sender lookup fails after the receipts were written, the receipts stay, the room's counts stay and the socket gets the join error |
| SocketState.LeaveRoomSpec | src/sockets/chatSocket.js:341-379 | `leave_room`: a missing room id emits one error and changes nothing else; leaving never touches messages, rooms, users or sockets, nor the active and typing sets of any other room |
| SocketState.LeaveRoomEffects | src/sockets/chatSocket.js:341-379 | leaving removes only this user from the room's active and typing sets, and keeps messages and rooms |
| SocketState.IncrementedCounts | src/sockets/chatSocket.js:427-432 | every participant but the sender gains one unread per occurrence in the participant list |
| SocketState.CountRefOfDistinct | src/sockets/chatSocket.js:428-432 | with distinct participants, each gains exactly one |
| SocketState.UnreadNotices | src/sockets/chatSocket.js:511-530 | unread notices go only to other participants and carry their new counts |
| SocketState.FirstOther | src/sockets/chatSocket.js:521-533 | the first participant other than the user, or none when there is none |
| SocketState.SentMessage | src/sockets/chatSocket.js:413-418 | the stored message has the trimmed content, status `sent`, no receipts or reactions |
| SocketState.SendRejectedChangesNothing | src/sockets/chatSocket.js:382-410 | a refused send emits one error and changes nothing else |
| SocketState.SendMessageSpec | src/sockets/chatSocket.js:382-548 | `send_message`: a rate-limited send emits one error and changes nothing else; a send never changes who is active, the users or the socket map; the auto-readers are active in the room and never the sender; a sender without a user document ends in the partial failure of `SendPartialFailure` |
| SocketState.SendMessageEffects | src/sockets/chatSocket.js:382-548 | an accepted send by a sender whose user document exists stores the message, makes it the room's last, raises every other participant's unread count by their occurrences, stops the sender typing, and auto-reads for exactly the other active users |
| SocketState.SendPartialFailure | src/sockets/chatSocket.js:411-547 | a sender whose user document is gone (a universal role passes the access check) still gets the message stored and the room's last message and unread counts saved, but the socket receives only 'Failed to send message': no broadcast, no typing change and no auto-read |
| SocketState.ReceiptsFor | src/sockets/chatSocket.js:474 | one receipt per auto-reader |
| SocketState.AutoReadSpec | src/sockets/chatSocket.js:466-478 | the timed auto-read changes only that message and the log: the message gains one receipt per reader, in reader order, stamped now, and one `messages_read` notice is logged |
| SocketState.AutoReadCanDuplicate | src/sockets/chatSocket.js:466-478 | the auto-read push does not check for earlier receipts, so a reader can hold two |
| SocketState.StartTypingSpec | src/sockets/chatSocket.js:551-579 | `start_typing`: a missing room id or a rate-limited call changes nothing; otherwise only the typing sets and the log change, the user then types in that room, and every other room's typists stay |
| SocketState.StopTypingSpec | src/sockets/chatSocket.js:582-608 | `stop_typing`: a missing room id changes nothing; otherwise only the typing sets and the log change, the user then no longer types in that room, and every other room's typists stay |
| SocketState.TypingRoundTrip | src/sockets/chatSocket.js:551-608 | start then stop typing leaves the user not typing in that room, and other rooms as they were |
| SocketState.MarkRoomReadSpec | src/sockets/chatSocket.js:611-628 | `mark_room_read`: a rate-limited call or a missing room id changes nothing; otherwise only that room changes, and the user then has no unread count in it |
| SocketState.MarkMessagesReadSpec | src/sockets/chatSocket.js:631-680 | `mark_messages_read`: a rate-limited call, a missing room id or an empty id list changes nothing; otherwise only messages and the log change, and a message not listed is untouched |
| SocketState.SendersOf | src/sockets/chatSocket.js:659-660 | the sender of each marked message, in order |
| SocketState.SenderNotices | src/sockets/chatSocket.js:663-672 | one `messages_read` notice per sender other than the reader |
| SocketState.SenderNoticesReach | src/sockets/chatSocket.js:663-672 | a user is notified exactly when it sent one of the messages and is not the reader |
| SocketState.MarkMessagesReadIgnoresRoom | src/sockets/chatSocket.js:640-655 | the update is not restricted to the room: a listed message of another room is marked read too |
| SocketState.AddReactionSpec | src/sockets/chatSocket.js:683-731 | `add_reaction`: a rate-limited call emits one error and changes nothing else; otherwise only that message and the log change, and a changed message gains exactly the user's reaction at the end |
| SocketState.AddReactionIdempotent | src/sockets/chatSocket.js:683-731 | reacting twice with the same emoji is reacting once |
| SocketState.ReactionCountReported | src/sockets/chatSocket.js:717-722 | the broadcast count is the number of reactions with that emoji, at least one |
| SocketState.RemoveReactionSpec | src/sockets/chatSocket.js:734-765 | `remove_reaction`: only that message and the log change; the message changes only in its reactions, which never grow |
| SocketState.RemoveReactionEffects | src/sockets/chatSocket.js:734-765 | the user's reaction with that emoji is gone, every other reaction stays, nothing is added |
| SocketState.EditMessageSpec | src/sockets/chatSocket.js:768-818 | `edit_message`: a rate-limited call emits one error and changes nothing else; otherwise only that message and the log change, and the message changes only when the user sent it |
| SocketState.EditEffects | src/sockets/chatSocket.js:768-818 | an edit either changes nothing or, for the sender, sets the trimmed content and the edit mark, whatever the deletion flag |
| SocketState.DeleteMessageSpec | src/sockets/chatSocket.js:821-860 | `delete_message`: a rate-limited call emits one error and changes nothing else; otherwise only that message and the log change, and the message changes only when the user sent it |
| SocketState.DeleteEffects | src/sockets/chatSocket.js:821-860 | a delete either changes nothing or, for the sender, sets only the deletion time, leaving the deletion flag as it was |
| SocketState.ConnectSpec | src/sockets/chatSocket.js:204-256 | a connection that passes the checks maps the user to this socket; a refused one changes no mapping; nothing else changes |
| SocketState.LastConnectionWins | src/sockets/chatSocket.js:239 | after two connections of the same user, the second socket is registered |
| SocketState.StripNotices | src/sockets/chatSocket.js:149-167 | at most one notice per room |
| SocketState.StripNoticesReach | src/sockets/chatSocket.js:149-167 | every room the user was in gets the leave notice with the remaining users |
| SocketState.StripUpToAll | src/sockets/chatSocket.js:149-167 | removing the user room by room gives the user stripped from every room |
| SocketState.CleanupSpec | src/sockets/chatSocket.js:147-179 | the user leaves every active and typing set and the socket map; rooms and messages are kept |
| SocketState.DisconnectDropsNewerSocket | src/sockets/chatSocket.js:863-867 | an old socket's disconnect removes the mapping of the user's newer socket too |
| SocketState.StaleUsers | src/sockets/chatSocket.js:189-193 | exactly the users whose socket is no longer connected |
| SocketState.SweepStep | src/sockets/chatSocket.js:195-198 | cleaning one stale user keeps the sweep's invariant |
| ChatSocket.AppendToKnownSender | src/sockets/chatSocket.js:298-305 | appending to a known sender's group keeps the groups in step with the map |
| ChatSocket.AddNewSender | src/sockets/chatSocket.js:298-305 | a new sender opens a new group at the end |
| ChatSocket.GroupBySender | src/sockets/chatSocket.js:296-315 | fails exactly when some sender is unknown; otherwise the groups are `SenderGroups` |
| ChatSocket.IncrementUnread | src/sockets/chatSocket.js:427-432 | the loop computes `Incremented` |
| ChatSocket.StripUser | src/sockets/chatSocket.js:149-167 | the loop removes the user from every set and collects exactly `StripNotices` |
| ChatSocket.JoinGrantedRun | src/sockets/chatSocket.js:278-337 | computes `JoinGranted` and keeps the state well formed and the socket map unchanged |
| ChatSocket.SendRun | src/sockets/chatSocket.js:382-548 | computes `SendMessageSpec`, keeping the state well formed |
| ChatSocket.DeliverRun | src/sockets/chatSocket.js:411-548 | computes the delivery part of a send, including the partial failure for a sender without a user document, keeping the state well formed |
| ChatSocket.MarkMessagesReadRun | src/sockets/chatSocket.js:631-680 | computes `MarkMessagesReadSpec`, keeping the state well formed |
| ChatSocket.AddReactionRun | src/sockets/chatSocket.js:683-731 | computes `AddReactionSpec`, keeping the state well formed |
| ChatSocket.EditMessageRun | src/sockets/chatSocket.js:768-818 | computes `EditMessageSpec`, keeping the state well formed |
| ChatSocket.ChatServer.constructor | src/sockets/chatSocket.js:19-22 | the server starts with no sockets, no active or typing users, no limiters |
| ChatSocket.ChatServer.Connect | src/sockets/chatSocket.js:204-256 | the state becomes `ConnectSpec`; an accepted connection gets a fresh, empty limiter registered for the user |
| ChatSocket.ChatServer.JoinRoom | src/sockets/chatSocket.js:259-338 | the state becomes `JoinRoomSpec` |
| ChatSocket.ChatServer.LeaveRoom | src/sockets/chatSocket.js:341-379 | the state becomes `LeaveRoomSpec` |
| ChatSocket.ChatServer.SendMessage | src/sockets/chatSocket.js:382-548 | the state becomes `SendMessageSpec` under the limiter's answer, and the limiter records the check |
| ChatSocket.ChatServer.AutoRead | src/sockets/chatSocket.js:466-490 | the state becomes `AutoReadSpec` |
| ChatSocket.ChatServer.StartTyping | src/sockets/chatSocket.js:551-579 | the state becomes `StartTypingSpec`; a missing room id skips the limiter |
| ChatSocket.ChatServer.StopTyping | src/sockets/chatSocket.js:582-608 | the state becomes `StopTypingSpec` |
| ChatSocket.ChatServer.MarkRoomRead | src/sockets/chatSocket.js:611-628 | the state becomes `MarkRoomReadSpec` |
| ChatSocket.ChatServer.MarkMessagesRead | src/sockets/chatSocket.js:631-680 | the state becomes `MarkMessagesReadSpec` |
| ChatSocket.ChatServer.AddReaction | src/sockets/chatSocket.js:683-731 | the state becomes `AddReactionSpec` |
| ChatSocket.ChatServer.RemoveReaction | src/sockets/chatSocket.js:734-765 | the state becomes `RemoveReactionSpec` |
| ChatSocket.ChatServer.EditMessage | src/sockets/chatSocket.js:768-818 | the state becomes `EditMessageSpec` |
| ChatSocket.ChatServer.DeleteMessage | src/sockets/chatSocket.js:821-860 | the state becomes `DeleteMessageSpec` |
| ChatSocket.ChatServer.CleanupUser | src/sockets/chatSocket.js:147-179 | the state becomes `CleanupSpec` and the user's limiter is dropped |
| ChatSocket.ChatServer.Disconnect | src/sockets/chatSocket.js:863-867 | a disconnect cleans up the socket's user |
| ChatSocket.ChatServer.Sweep | src/sockets/chatSocket.js:185-199 | exactly the users whose socket is gone are removed from the socket map and from every active and typing set; other users, rooms and messages are kept |
| SocketState.Registry.Add | src/sockets/chatSocket.js:274-277 | the user joins the key's set, creating it when missing; every other key's set is unchanged and a well-formed registry stays well formed |
| SocketState.Registry.Remove | src/sockets/chatSocket.js:356-359 | the user leaves the key's set; every other set and the key list are unchanged |
| SocketState.Registry.Strip | src/sockets/chatSocket.js:147-165 | the user leaves every set while every key stays |
| ChatController.CanDirectChat | src/controller/chat.controller.js:207-224 | the `canChat` decision: only an admin role or a `USER` may open a direct room, and across tenants only with a super admin on one side |
| ChatController.SuperAdminReachesAdminsOnly | src/controller/chat.controller.js:209-211 | a super admin may open a direct room exactly with an `ADMIN` or `TENANT_ADMIN`, whatever the tenants |
| ChatController.AdminPeersRefused | src/controller/chat.controller.js:212-218 | an `ADMIN` or `TENANT_ADMIN` may not open a direct room with another `ADMIN` or `TENANT_ADMIN` |
| ChatController.UnknownRoleRefused | src/controller/chat.controller.js:207-224 | a caller whose role is none of the four may open a direct room with nobody |
| ChatController.DirectChatOneWay | src/controller/chat.controller.js:207-224 | the permission holds one way only exactly when the caller is a `USER` and the other is a same-tenant member who is neither a `USER` nor an `ADMIN`/`TENANT_ADMIN` |
| ChatController.TenantlessUserReachesSuperAdmin | src/controller/chat.controller.js:219-223 | a `USER` without a tenant may open a room with a tenantless super admin, who may not open one back |
| ChatController.AdminPairSymmetric | src/controller/chat.controller.js:402-407 | the admin-chat pairing rule is symmetric, and every allowed pair has exactly one super admin |
| ChatController.AdminPairsMayChatDirectly | src/controller/chat.controller.js:207-224 | a pair allowed an admin chat may also open a direct room, in both directions |
| ChatController.FirstRoomWhere | src/controller/chat.controller.js:232-237 | `findOne`: the first room matching the filter, and none exactly when no room matches |
| ChatController.FirstRoomWhereAppended | src/controller/chat.controller.js:232-237 | a matching room appended to rooms with no match is the one found afterwards |
| ChatController.PairParticipants | src/controller/chat.controller.js:250-259 | the creator as `INITIATOR` and the other user as `PARTICIPANT`, both joined now |
| ChatController.PairRoomHasBoth | src/controller/chat.controller.js:232-237 | a room created for a pair matches the `$all` lookup in either order |
| ChatController.CreateDirectRoom | src/controller/chat.controller.js:181-274 | a missing target and the caller's own id are each 400; it goes ahead exactly when the target exists, is active and the role rule allows it, and refuses with 403 exactly when only the role rule fails; an existing pair room is returned; otherwise a new DIRECT room of the caller's tenant with the two participants, valid under the corrected schema |
| ChatController.DirectRoomFoundAgain | src/controller/chat.controller.js:231-243 | once the room is stored, the same request, and the reverse one when it is allowed, return that room instead of creating another |
| ChatController.DirectRoomRefusedAsWritten | src/models/room.model.js:34 | every DIRECT room the handler creates fails the participant role enum as written |
| ChatController.GroupMembers | src/controller/chat.controller.js:306 | distinct ids, the caller first, containing every given id and nothing else |
| ChatController.GroupTooSmallIff | src/controller/chat.controller.js:306-310 | the member list has fewer than two entries exactly when every given id is the caller's |
| ChatController.CountMatchesIffAllActive | src/controller/chat.controller.js:313-316 | for distinct ids, the count of active users equals the list length exactly when every one is active |
| ChatController.GroupParticipants | src/controller/chat.controller.js:331-335 | one participant per member in order, the caller as room `ADMIN` and everyone else `PARTICIPANT` |
| ChatController.CreateGroupRoomOutcome | src/controller/chat.controller.js:283-318 | 403 exactly for a caller who is not an admin, checked first; an admin naming a blank group gets 400; goes ahead exactly when the name is not blank, the list is non-empty, the tenant is given, and the de-duplicated members number at least two and are all active; then the result is the find-or-create step on those members |
| ChatController.GroupOfMembers | src/controller/chat.controller.js:306-318 | refused with 400 for fewer than two members and 404 when one is not active, and only then; otherwise the find-or-create step |
| ChatController.GroupFoundOrCreated | src/controller/chat.controller.js:319-350 | the first group of that name in the tenant when there is one; otherwise, with no such group present, a new group of the members in order, the caller as room admin, valid under the corrected schema |
| ChatController.NewGroupRoom | src/controller/chat.controller.js:331-350 | the new group carries the given name, tenant and members in order, the caller as room admin, and is valid under the corrected schema |
| ChatController.GroupOfOneRefused | src/controller/chat.controller.js:308-310 | a group request naming only the caller is refused with 400 |
| ChatController.GroupRoomRefusedAsWritten | src/models/room.model.js:34 | every group the handler creates fails the participant role enum as written |
| ChatController.CreateAdminChat | src/controller/chat.controller.js:365-455 | a non-admin caller gets 403; goes ahead exactly when the target is another active user and the pairing rule allows it; 403 exactly for a non-admin caller or a valid target the rule refuses; an existing pair room is returned; otherwise a new tenantless ADMIN_CHAT room, valid under the corrected schema |
| ChatController.AdminPeersDenied | src/controller/chat.controller.js:401-411 | two tenant admins, or two super admins, are refused with 403 even when both are active |
| ChatController.AdminChatRefusedAsWritten | src/models/room.model.js:34 | every admin chat the handler creates fails the participant role enum as written |
| ChatController.Paginate | src/controller/chat.controller.js:99-105 | accepted exactly when a given page is non-negative and a given limit lies in 0..100; then page and limit are at least 1, positive given values are kept, and skip is `(page-1)*limit` |
| ChatController.ZeroMeansDefault | src/controller/chat.controller.js:99-100 | a page or limit of 0 reads as the default, because zero is falsy |
| ChatController.RowOnPage | src/controller/chat.controller.js:99-163 | every stored row lies in the skip window of an accepted page no greater than the page count |
| ChatController.Ids | src/controller/chat.controller.js:74-76 | the user ids, one per user, in order |
| ChatController.LastWithId | src/controller/chat.controller.js:74-76 | a listed user with that id, and none exactly when the id is absent |
| ChatController.IndexOfId | src/controller/chat.controller.js:74-76 | the position of the first entry with that id, and none exactly when the id is absent |
| ChatController.MapSet | src/controller/chat.controller.js:75 | `Map.set` keeps the key order for a known key and appends a new key at the end |
| ChatController.UniqueByIdOrder | src/controller/chat.controller.js:74-76 | the de-duplicated ids are the input ids in order of first appearance, each once |
| ChatController.UniqueByIdLastWins | src/controller/chat.controller.js:74-76 | each kept user is the last one listed with its id |
| ChatController.RoomReadSpec | src/controller/chat.controller.js:566-617 | succeeds exactly for a given id of an existing room; a missing id is 400; a refusal changes nothing |
| ChatController.RoomReadEffects | src/controller/chat.controller.js:566-617 | afterwards the caller's unread count is 0, every message of the room from others is read by the caller, and other rooms, other rooms' messages and already-read messages are unchanged |
| ChatController.RoomReadIdempotent | src/controller/chat.controller.js:566-617 | marking a room read twice is marking it once |
| ChatController.EditSpec | src/controller/chat.controller.js:794-829 | succeeds exactly when content is given and the caller sent the message, which is not deleted; then only content, the edit flag and the edit time change; a refusal changes nothing; rooms never change |
| ChatController.DeleteSpec | src/controller/chat.controller.js:832-857 | succeeds exactly for an existing message whose sender is the caller, or for a super admin; then only that message is soft-deleted with the caller as deleter; a refusal changes nothing |
| ChatController.DeletedThenEditRefused | src/controller/chat.controller.js:794-857 | after the sender deletes a message, the sender's edit is refused with 400 and changes nothing |
| ChatController.DeleteRestamps | src/controller/chat.controller.js:832-857 | a super admin may delete an already deleted message again, which overwrites the deleter and the time |
| ChatController.DeliverSpec | src/controller/chat.controller.js:861-898 | a missing room id is 400 and changes nothing; otherwise exactly the room's live `sent` messages from others become `delivered` now, and the count is how many |
| ChatController.DeliverIdempotent | src/controller/chat.controller.js:861-898 | a second delivery updates nothing and changes nothing |
| ChatController.SocketMessagesDeliveredOverRest | src/sockets/chatSocket.js:413-418 | a message stored by `send_message` is `sent`, so the REST delivery selects it for anyone but its sender, while the schema's `markAsDelivered` leaves it unchanged |
| ChatController.ChatStore.MarkRoomAsRead | src/controller/chat.controller.js:566-617 | the reply and the new rooms and messages are those of `RoomReadSpec` |
| ChatController.ChatStore.EditMessage | src/controller/chat.controller.js:794-829 | the reply and the new messages are those of `EditSpec` |
| ChatController.ChatStore.DeleteMessage | src/controller/chat.controller.js:832-857 | the reply and the new messages are those of `DeleteSpec` |
| ChatController.ChatStore.MarkMessagesDelivered | src/controller/chat.controller.js:861-898 | the reply, the count and the new messages are those of `DeliverSpec` |
| ContactController.BlockSpec | src/controller/contact.controller.js:271-311 | succeeds exactly for a given id that is not the caller's, a found document and a user not yet blocked; then the user is blocked and no longer a contact, and nothing else in the document changes (the save hook is not applied, see Left out); a refusal changes nothing; an already blocked user is refused with 400 |
| ContactController.BlockKeepsOthers | src/controller/contact.controller.js:295-299 | a block keeps every earlier block and every contact of another user |
| ContactController.UnblockSpec | src/controller/contact.controller.js:317-348 | succeeds exactly for a given id of a currently blocked user in a found document, with no self check; then only the blocked list changes and the user is no longer blocked; a refusal changes nothing |
| ContactController.UnblockUndoesBlockButNotContact | src/controller/contact.controller.js:271-348 | unblocking right after a block succeeds and restores the blocked list exactly, while the contact the block removed stays removed |
| ContactController.BlockTwiceRefused | src/controller/contact.controller.js:290-293 | blocking the same user a second time is refused as already blocked |
| ContactController.TargetMatches | src/controller/contact.controller.js:33-40 | a match is never the caller and always active; an active other user with the lowercased e-mail always matches |
| ContactController.FindTarget | src/controller/contact.controller.js:33-40 | `findOne`: the first active user other than the caller whose phone is the identifier or whose e-mail is its lowercase form, and none exactly when no user matches |
| ContactController.AddContactSpec | src/controller/contact.controller.js:23-84 | a missing identifier is 400; 201 exactly when a target is found and is not yet a contact; then exactly one contact for the target, named by the given name or the target's name, is appended, nothing else changes (the save hook is not applied, see Left out), and unique contacts stay unique; a refusal changes nothing |
| ContactController.BlockedUserCanBeAdded | src/controller/contact.controller.js:23-84 | a user the caller has blocked is still found and added back as a contact, and stays blocked |
| ContactController.RemoveSpec | src/controller/contact.controller.js:236-264 | succeeds exactly for a found document holding the contact, which is then gone; a refusal changes nothing |
| ContactController.FavoriteSpec | src/controller/contact.controller.js:406-468 | `markFavorite` and `unmarkFavorite` succeed exactly for a found document holding the contact, whose flag then has the requested value; a refusal changes nothing |
| ContactController.ContactRenamed | src/controller/contact.controller.js:490-496 | the same number of contacts; the user's contact gets the new name and every other entry is unchanged |
| ContactController.RenameSpec | src/controller/contact.controller.js:474-507 | succeeds exactly for a non-empty name, a found document and an existing contact, which then carries the new name with nothing else in the document changed (the save hook is not applied, see Left out); a refusal changes nothing |
| ContactController.JsPages | src/controller/contact.controller.js:151 | `Math.ceil(total / limit)`: the page count for a positive limit, and never positive for a negative limit |
| ContactController.ListPage | src/controller/contact.controller.js:96-151 | the shared listing window: `total` is the item count, page and limit are the parsed values or their defaults and never zero, the page holds at most every item, and `pages` is the JS page count |
| ContactController.PageIsWindow | src/controller/contact.controller.js:96-130 | with a positive page and limit the listing is exactly the page-th window of at most `limit` items |
| ContactController.ItemOnPage | src/controller/contact.controller.js:96-151 | every item appears on the page its index says, at its offset within the page, and that page is within the page count |
| ContactController.NegativePageReadsFromEnd | src/controller/contact.controller.js:96-130 | page -1 is not refused: it returns the second-to-last window of `limit` items |
| ContactController.Favorites | src/controller/contact.controller.js:533 | `getFavoriteContacts`: exactly the starred contacts |
| ContactController.StarredIsListed | src/controller/contact.controller.js:406-434 | a contact just starred appears in the favourites listing |
| ContactController.FilterSplit | src/controller/contact.controller.js:115-116 | the starred and the unstarred contacts together are the contacts, as a multiset |
| ContactController.FavoritesFirst | src/controller/contact.controller.js:115-116 | sort `favorite`: a permutation of the contacts with every starred contact before every unstarred one |
| ContactController.FavoritesFirstStable | src/controller/contact.controller.js:115-116 | the sort is stable: the starred contacts, and the unstarred ones, keep their stored order |
| ContactController.InsertByDate | src/controller/contact.controller.js:117-118 | inserting into a newest-first list keeps it newest first and adds exactly the new contact |
| ContactController.SortByDate | src/controller/contact.controller.js:117-118 | sort `date`: a permutation of the contacts, newest first |
| ContactController.InsertByDateStable | src/controller/contact.controller.js:117-118 | inserting keeps the contacts of each date in their order, the new one after those of its date |
| ContactController.SortByDateStable | src/controller/contact.controller.js:117-118 | the sort is stable, as `Array.sort` is: the contacts added at one instant keep their stored order |
| ContactController.SortedContacts | src/controller/contact.controller.js:114-125 | either modelled sort is a permutation of the stored contacts |
| ContactController.AllContacts | src/controller/contact.controller.js:93-159 | `getAllContacts`: the total counts every stored contact |
| ContactController.AllContactsFromStore | src/controller/contact.controller.js:93-159 | every contact on a page of the sorted listing is a stored contact |
| ContactController.SearchContacts | src/controller/contact.controller.js:167-230 | 400 exactly without a query; otherwise the total counts exactly the contacts that match by shown name, e-mail or phone, and every match is a stored contact |
| ContactController.SearchIgnoresCase | src/controller/contact.controller.js:191-193 | a contact whose shown name contains the query up to ASCII case is a hit for the lowercased query |
| ContactController.LowerIdempotent | src/controller/contact.controller.js:191 | lowercasing twice is lowercasing once |
| ContactController.BlockUser | src/controller/contact.controller.js:271-311 | the reply and the caller's document afterwards are `BlockSpec` of the document before |
| ContactController.UnblockUser | src/controller/contact.controller.js:317-348 | the reply and the document afterwards are `UnblockSpec` |
| ContactController.AddContact | src/controller/contact.controller.js:23-84 | the reply and the document afterwards are `AddContactSpec` |
| ContactController.RemoveContact | src/controller/contact.controller.js:236-264 | the reply and the document afterwards are `RemoveSpec` |
| ContactController.MarkFavorite | src/controller/contact.controller.js:406-468 | the reply and the document afterwards are `FavoriteSpec` |
| ContactController.UpdateContactName | src/controller/contact.controller.js:474-507 | the reply and the document afterwards are `RenameSpec` |
| NotificationController.ParsePlatform | src/controller/notification.controller.js:9-24 | `platform = 'web'`: a missing platform passes the platform check, and a given one passes exactly when it is `web`, `android` or `ios` |
| NotificationController.TokenIndex | src/controller/notification.controller.js:52 | `findIndex`: the first entry carrying the token, and none exactly when no entry carries it |
| NotificationController.Registered | src/controller/notification.controller.js:52-75 | afterwards the token is listed; a new token is appended with its platform and time and only the ten newest entries are kept, in order; a known token only has its `createdAt` refreshed, every other entry unchanged |
| NotificationController.RegisterKeepsTokensUnique | src/controller/notification.controller.js:52-75 | registration never makes two entries carry the same token |
| NotificationController.RegisterKeepsCap | src/controller/notification.controller.js:63-65 | a list of at most ten entries stays at most ten |
| NotificationController.ReRegisterRefreshes | src/controller/notification.controller.js:70-75 | registering the same token again keeps the length and only refreshes that token's timestamp |
| NotificationController.RegisterSpec | src/controller/notification.controller.js:7-91 | a missing or non-string token is 400; succeeds exactly for a given token, a valid platform (default `web`) and a found document; `CLEAR_ALL` empties the list; any other token gives the registered list and reports its length; a refusal changes nothing |
| NotificationController.Unregistered | src/controller/notification.controller.js:120 | exactly the entries that do not carry the token remain |
| NotificationController.Occurrences | src/controller/notification.controller.js:119-121 | the number of entries carrying a token is at most the list length |
| NotificationController.RemovedCountIsOccurrences | src/controller/notification.controller.js:119-121 | `removedCount` is exactly the number of entries that carried the token |
| NotificationController.UnregisterKeepsOrder | src/controller/notification.controller.js:120 | the filter works entry by entry, so surviving entries keep their order |
| NotificationController.UnregisterAbsentIsNoop | src/controller/notification.controller.js:119-126 | unregistering a token that is not listed leaves the list unchanged |
| NotificationController.UnregisterUndoesRegister | src/controller/notification.controller.js:7-143 | below the cap, unregistering a newly registered token restores the list exactly |
| NotificationController.UnregisterSpec | src/controller/notification.controller.js:96-143 | succeeds exactly for a given token and a found document; then the token's entries are gone, `removedCount` counts them and `remainingTokens` counts the rest; a refusal changes nothing |
| NotificationController.FailedTokens | src/controller/notification.controller.js:178-184 | at most one token per failed answer and per entry, and none when every answer succeeded |
| NotificationController.FailedTokensExactly | src/controller/notification.controller.js:178-184 | a token is collected exactly when some failed answer's index names an entry carrying it |
| NotificationController.FailureCount | src/controller/notification.controller.js:177 | the failure count is zero exactly when every send succeeded |
| NotificationController.Pruned | src/controller/notification.controller.js:177-189 | the pruned list is a sub-multiset of the stored one: nothing is added |
| NotificationController.PrunedExactly | src/controller/notification.controller.js:177-189 | an entry survives the prune exactly when no failed index carries its token |
| NotificationController.AllDeliveredKeepsTokens | src/controller/notification.controller.js:177 | when every send succeeds the list is unchanged |
| NotificationController.CollectFailed | src/controller/notification.controller.js:178-184 | the loop collects exactly the tokens of the failed sends, in index order |
| NotificationController.SendNotificationToUser | src/controller/notification.controller.js:145-196 | the multicast goes out exactly with a configured push service, a found document and at least one token; afterwards the list is the pruned one, or unchanged when nothing went out, and nothing else in the document changes (the save hook is not applied, see Left out) |
| NotificationController.StoreToken | src/controller/notification.controller.js:52-75 | the document's token list becomes the registered list and nothing else changes (the save hook is not applied, see Left out) |
| NotificationController.RegisterFcmToken | src/controller/notification.controller.js:7-91 | the reply, the count and the document afterwards are `RegisterSpec` of the document before |
| NotificationController.UnregisterFcmToken | src/controller/notification.controller.js:96-143 | the reply, both counts and the document afterwards are `UnregisterSpec` |
| TenantController.Dashed | src/controller/tenant.controller.js:25 | `replace(/[^a-z0-9]/g, '-')`: the same length, only slug characters, every letter and digit kept in place |
| TenantController.CollapseDashes | src/controller/tenant.controller.js:25 | `replace(/-+/g, '-')`: no longer than the input, empty exactly when the input is, ending in the same character, without two dashes in a row, and made only of the input's characters |
| TenantController.Slug | src/controller/tenant.controller.js:25 | the workspace slug uses only lowercase ASCII letters, digits and dashes, never two dashes in a row, and is no longer than the name |
| TenantController.CollapseKeepsLetters | src/controller/tenant.controller.js:25 | collapsing dashes keeps the letters and digits in order |
| TenantController.DashedKeepsLetters | src/controller/tenant.controller.js:25 | replacing the other characters by dashes keeps the letters and digits in order |
| TenantController.SlugKeepsLettersAndDigits | src/controller/tenant.controller.js:25 | the slug holds exactly the letters and digits of the lowercased name, in order |
| TenantController.CollapseOfCollapsed | src/controller/tenant.controller.js:25 | collapsing a string without double dashes changes nothing |
| TenantController.SlugIdempotent | src/controller/tenant.controller.js:25 | the slug of a slug is itself |
| TenantController.SlugOfSpacedName | src/controller/tenant.controller.js:25 | a space becomes a dash and capitals are lowered |
| TenantController.SlugCollapsesRuns | src/controller/tenant.controller.js:25 | a run of spaces and dashes becomes one dash |
| TenantController.SlugKeepsEdgeDash | src/controller/tenant.controller.js:25 | a trailing punctuation mark leaves a trailing dash, since nothing trims the slug |
| TenantController.Tenant.constructor | src/models/tenant.model.js:3-70 | the document holds exactly the given fields |
| TenantController.StoredInviteAsWritten | src/models/tenant.model.js:53-56 | as the schema is written, a saved invite keeps its token and expiry and loses the invited e-mail and phone and the acceptance record |
| TenantController.MayAct | src/controller/tenant.controller.js:138-266 | only a super admin or the workspace's own admin may act at all, and the workspace's admin may do everything except delete it |
| TenantController.AccessStatus | src/controller/tenant.controller.js:126-274 | every workspace handler answers 404 exactly when the workspace is missing; the details view answers 500 exactly when the admin's user document is gone and the caller is not a super admin; 200 exactly when the caller may act and that failure does not apply; otherwise 403 |
| TenantController.OnlyDetailsReadsAdmin | src/controller/tenant.controller.js:154-266 | every handler but the details view compares the bare `adminId`, so its answer does not depend on the admin's document and is never 500 |
| TenantController.DeletedAdminBreaksDetails | src/controller/tenant.controller.js:130-143 | with the admin's document deleted, the details view throws for everyone but a super admin, who still reads the workspace |
| TenantController.SuperAdminReadsButDoesNotManage | src/controller/tenant.controller.js:138-191 | a super admin who does not run the workspace may read it and list its users but not re-theme it or invite into it |
| TenantController.AdminManagesButDoesNotDelete | src/controller/tenant.controller.js:138-266 | the workspace's admin may do everything except delete it |
| TenantController.ManagingImpliesReading | src/controller/tenant.controller.js:138-228 | whoever may re-theme or invite into a workspace may also read it and list its users |
| TenantController.ThemeArg | src/controller/tenant.controller.js:157 | `req.body.theme \|\| req.body`: a given theme object is used, the empty one included, and the whole body only when there is none |
| TenantController.MergedTheme | src/controller/tenant.controller.js:168 | the merged theme has the keys of both; given values win and other current values stay |
| TenantController.ThemeMergeIdempotent | src/controller/tenant.controller.js:168 | applying the same theme twice is applying it once |
| TenantController.EmptyThemeKeepsTheme | src/controller/tenant.controller.js:168 | an empty theme changes nothing |
| TenantController.UpdateTheme | src/controller/tenant.controller.js:154-176 | the status is the access decision; a refusal changes nothing; on success only the theme, now the merge of the stored one and the given one, and the update time change |
| TenantController.InviteUrl | src/controller/tenant.controller.js:200 | the link starts with the frontend address followed by `/join/`, ends with the token, and has exactly the length of its parts |
| TenantController.GenerateInviteLink | src/controller/tenant.controller.js:181-206 | the status is the access decision; a refusal changes nothing and returns no link; on success the invite is replaced by the new token, expiring seven days from now, with no acceptance recorded, and the link points at the slug with that token |
| TenantController.InviteExpired | src/controller/auth.controller.js:461-463 | an invite is still valid up to and including its expiry instant, and expired one millisecond later |
| TenantController.InviteLastsSevenDays | src/controller/auth.controller.js:461-463 | a link made at `t` is still valid at `t` plus seven days and expired one millisecond later |
| TenantController.AdminName | src/models/user.model.js:5-8 | the admin's name `<name> Admin` is stored trimmed: never empty, no whitespace at either end, at most six characters longer than the workspace name |
| TenantController.CreateTenantOutcome | src/controller/tenant.controller.js:10-65 | a missing name or e-mail is 400, a registered e-mail is 400, a taken slug is 400; then the admin account must pass the user schema: an e-mail failing its pattern is refused first, then a password (the default only when none is sent) shorter than six; it succeeds exactly when all these pass; then an active `ADMIN` with the trimmed name, the lowercased e-mail and that password belongs to a new workspace with that non-empty slug, no members, no invite and the default theme |
| TenantController.ShortPasswordRefused | src/models/user.model.js:44-47 | an empty or too short password is refused by the schema and no workspace is created |
| TenantController.CreatedAdminRunsWorkspace | src/controller/tenant.controller.js:10-65 | the new admin may re-theme and invite into the new workspace but may not delete it |
| TenantController.SameSlugRefused | src/controller/tenant.controller.js:25-31 | once created, another workspace whose name gives the same slug is refused |
| TenantController.DeleteTenantSpec | src/controller/tenant.controller.js:255-274 | the status is the access decision, only a super admin deleting; on success exactly that workspace is gone, otherwise nothing changes |
| TenantController.TenantUserTotal | src/controller/tenant.controller.js:211-250 | the status is the access decision; on success `total` counts exactly the users of the workspace |
| AuthController.NormalizePhone | src/controller/auth.controller.js:45 | the normalized phone holds only digits and is no longer than the input |
| AuthController.NormalizePhoneIdempotent | src/controller/auth.controller.js:45 | normalizing twice is normalizing once, and normalizing works piece by piece |
| AuthController.FindUser | src/controller/auth.controller.js:140 | `findOne`: the first document the filter accepts, and none exactly when no document does |
| AuthController.NewUser | src/controller/auth.controller.js:61-71 | a new account is an active, unverified `USER` with a verification code exactly when it has a phone |
| AuthController.PhoneCheck | src/controller/auth.controller.js:43-52 | no phone passes as none; a given phone passes exactly when it validates and its normalized form (10 to 15 digits) is not taken |
| AuthController.Register | src/controller/auth.controller.js:21-113 | the checks in order: required fields 400, e-mail format and password strength thrown, confirmation 400; a registered account has the new id, the lowercased new e-mail, the password, no tenant, and the normalized free phone with its code when one was given; every request that passes all checks registers |
| AuthController.RegisterKeepsUsersUnique | src/controller/auth.controller.js:43-58 | a registration keeps e-mails and set phone numbers unique across the collection |
| AuthController.ByEmailOrPhone | src/controller/auth.controller.js:131-138 | the lookup is by e-mail when one is given, and otherwise by the normalized phone |
| AuthController.Login | src/controller/auth.controller.js:118-182 | neither e-mail nor phone is 400, no password is 400; a login or a phone step needs the found account's password to match and the account not to be banned; a login stamps `lastLogin`; the phone step is asked exactly of an unverified phone when verification is required, and reports its last four digits |
| AuthController.LoginAfterLookup | src/controller/auth.controller.js:131-182 | with the required fields given: a phone-only login with an invalid phone throws; otherwise 401 exactly when no account is found or the password does not match, 403 for a banned account with the right password, and any other account logs in with `lastLogin` stamped or, for an unverified phone when verification is required, is asked for the phone step |
| AuthController.WrongPasswordHidesBan | src/controller/auth.controller.js:140-148 | a wrong password gets 401 whether or not the account is banned; only a right password reveals the ban with 403 |
| AuthController.SendCodeSpec | src/controller/auth.controller.js:187-226 | succeeds exactly for a given id of a found account with an unverified phone; then only the verification code is replaced; a refusal changes nothing |
| AuthController.VerifyPhoneSpec | src/controller/auth.controller.js:231-265 | succeeds exactly when the id and code are given and the code is the stored one; then the phone is verified and the code used up; a wrong code is 401; a refusal changes nothing |
| AuthController.SentCodeVerifiesOnce | src/controller/auth.controller.js:187-265 | the code just sent verifies the phone, and entering it again finds no active verification |
| AuthController.SendPhoneVerification | src/controller/auth.controller.js:187-226 | the reply and the document afterwards are `SendCodeSpec` of the document before |
| AuthController.VerifyPhoneNumber | src/controller/auth.controller.js:231-265 | the reply and the document afterwards are `VerifyPhoneSpec` |
| AuthController.ForgotPassword | src/controller/auth.controller.js:270-317 | neither e-mail nor phone is 400; on success only the found account changes, getting the code and an expiry ten minutes ahead; with no account found it never succeeds; a refusal changes nothing |
| AuthController.VerifyResetOtp | src/controller/auth.controller.js:322-358 | succeeds exactly when a code and an e-mail or phone are given and some account has that key, that code and an expiry still ahead |
| AuthController.ResetPassword | src/controller/auth.controller.js:363-417 | on success only the account matching key, code and live expiry changes: the new password is set, strong enough and confirmed, and the code and expiry are cleared; every complete request with such an account succeeds; a refusal changes nothing |
| AuthController.OnlyOwnerHasEmail | src/models/user.model.js:9-16 | with unique e-mails, no other account answers the lookup of an owner's e-mail |
| AuthController.CodeValidForTenMinutes | src/controller/auth.controller.js:295-344 | a code sent at `t` is accepted exactly while the clock is before `t` plus ten minutes |
| AuthController.ResetIsOneTime | src/controller/auth.controller.js:388-400 | after a reset, the same request is refused with 401 |
| AuthController.PhoneToUse | src/controller/auth.controller.js:467 | `phone \|\| invitedPhone`: the request's phone wins, the invited one fills in, and the result is empty exactly when both are missing |
| AuthController.AcceptInvite | src/controller/auth.controller.js:518-526 | the joiner is appended to the members and the invite records who accepted it and when; nothing else about the workspace changes |
| AuthController.JoinSpec | src/controller/auth.controller.js:422-560 | missing fields are 400; joining requires the workspace's invite with that token, not accepted, not expired, matching strong passwords, a trimmed name of at least two characters, a free phone, and an invited e-mail that is free and passes the schema's pattern; the joiner is an active unverified `USER` of the workspace with that e-mail and the given or invited phone; the workspace gains the joiner as a member and the invite records who accepted it and when; an accepted invite is always refused |
| AuthController.JoinSucceeds | src/controller/auth.controller.js:422-560 | the converse: a complete request whose link, passwords, name and phone pass every check, for a free invited e-mail that passes the pattern, joins |
| AuthController.NoInviteIsInvalidToken | src/controller/auth.controller.js:447-455 | a workspace that never made an invite answers a complete request with 401 invalid token, since the nested invite path always reads as an object |
| AuthController.NoJoinAsWritten | src/models/tenant.model.js:53-56 | with invites stored as the schema is written, no registration through a link succeeds, and one passing every other check fails on the missing e-mail |
| AuthController.InviteIsSingleUse | src/controller/auth.controller.js:457-459 | with the invite schema corrected to keep the acceptance, once someone joins through an invite any later request with the same link is refused |
| AuthController.RegisterWithInvite | src/controller/auth.controller.js:422-560 | a refusal returns `JoinSpec`'s reply and leaves the workspace unchanged; a join returns 201 with the new account, and the workspace afterwards is `JoinSpec`'s |
| AuthController.ProfileSpec | src/controller/auth.controller.js:565-621 | a missing account is 404; for a found account the update succeeds exactly when no phone is given, or the phone is valid and is either the stored one or not taken; an invalid phone throws the validator's message, a taken new phone is 400, and a refusal changes nothing; on success a name is taken trimmed only when it has two or more characters, an avatar replaces the old one, a new phone becomes unverified with a new code, the same phone keeps its verification, and only name, phone, verification flag, verification code and avatar change (the save hook is not applied, see Left out) |
| AuthController.SamePhoneStaysVerified | src/controller/auth.controller.js:584-605 | re-entering the stored, verified phone number succeeds and keeps it verified |
| AuthController.StoreProfile | src/controller/auth.controller.js:579-611 | writes the fields a profile update may change, and the document afterwards is exactly the given one |
| AuthController.UpdateProfile | src/controller/auth.controller.js:565-621 | the reply and the document afterwards are `ProfileSpec` of the document before |

## Left out

- Socket.IO transport (`emit`, `to`, `join`, `leave`, `fetchSockets`, the handshake): emitted events are entries appended to an event log, and live sockets are a parameter of the sweep.
- Timers: the auto-read `setTimeout` and the sweep `setInterval` are plain operations the caller invokes; interleavings with other events are not modelled.
- MongoDB: queries, `populate`, `save`, `updateMany`, indexes and atomicity are replaced by in-memory maps and sequences; concurrent requests are not interleaved.
- The 500 paths: errors thrown by the database or by foreign code and forwarded to `next(error)`.
- JWT signing and verification, and bcrypt: a decode function and a password-matching function are parameters.
- `crypto.randomBytes` invite tokens and `Math.random` codes: the token or code is a parameter.
- `Date.now()` and `new Date()`: time is the parameter `now`.
- Cloudinary upload and destroy calls, `fs`, Firebase messaging, e-mail and SMS delivery: their answers are parameters.
- `validateFile` in `src/utils/cloudinary.js` refers to names it never defines and is not modelled.
- `ContactController.SortedContacts`: the default name sort uses locale-dependent `localeCompare` and is not modelled; only the `favorite` and `date` sorts are.
- Case folding is ASCII only, so `ToLower`, the searches and the slug agree with the source only on ASCII text.
- Routes, `app.js`, `index.js`, database setup, scripts, configuration, constants, mailer and e-mail templates, `multerConfig.js`, `response.js`, `tokenUtils.js` and `createAdmin.js` are wiring without logic of their own; the call-log, upload, user and second contacts controllers and the call-log model are outside the core. None of these is part of this model.
- `chat.controller.js`: these read-only listings and lookups are not modelled beyond their shared pagination (`Paginate`, `RowOnPage`) and de-duplication (`UniqueByIdOrder`):
  - `getRoomMessages`, `searchMessages`, `getAllChats`, `getAdminChatsById`;
  - `createOrGetRoom`, `getAdminMemberChats`, `getSpecificMemberChats`, `getMemberChatHistory`;
  - `sendMessageWithMedia`, whose work is the upload.
- `getAvailableUsersToChat`: only its final de-duplication is modelled; the per-role queries that build the list are database reads.
- `contact.controller.js` `getBlockedUsers`: its page is the same `ListPage` window over the blocked list; the populated projection is not modelled.
- `auth.controller.js`: `refreshToken`, `logout`, `me`, `logoutAll`, `getSessions` and `revokeSession` are token plumbing over the refresh-token methods already modelled in `UserModel`.
- `registerWithInvite` also updates an `inviteHistory` list that the tenant schema does not declare; strict mode drops it, and it is not modelled.
- The tenant schema declares only `token` and `expiresAt` under `inviteToken`, so in strict mode a save drops `invitedEmail`, `invitedPhone`, `acceptedAt` and `acceptedBy` (see Findings). The model keeps all six fields, as the controllers write them, and `StoredInviteAsWritten` gives the invite as the schema stores it.
- `generateInviteLink` never records an invited e-mail, so even with the corrected schema a link it makes ends in `SchemaRejected("email")` when used; nothing else in the repository writes an invite.
- AuthController.JoinSpec: the lookup `findOne({ email: undefined })` for an invite without an e-mail is taken to find no account; the query semantics of an undefined value are the database's, and either way no account is created.
- `tenant.controller.js`: `getAllTenants` and `getTenantBySlug` are plain reads, and the paged user list of `getTenantUsers` is a database window; only its access decision and `total` are modelled (`TenantUserTotal`).
- `auth.controller.js` imports and re-exports `getInviteInfo` from `tenant.controller.js`, which does not define it; that handler is not part of this model.
- `TenantController.UpdateTheme`: the theme is a map of strings, so the schema's casting of unknown theme keys is not modelled.
- The pre-save hook (src/models/user.model.js:183-196, `UserModel.User.PreSave`) is modelled on its own but not applied to the controllers' `user.save()` calls (contact.controller.js lines 64, 254, 301, 338, 424, 458 and 497; auth.controller.js lines 161, 212, 256, 299, 401 and 612; notification.controller.js lines 39, 67, 73, 124 and 187). So the documents these handlers store keep their refresh tokens as they were, where the database would also drop expired and revoked tokens and keep the newest five. Every other field is as stated.
- `notification.controller.js`: the message shaping in `sendNotificationToUser` and `sendMessageNotification`, and the read-only `getNotificationStats`, are not modelled.

## Findings

| source | as written | input that shows it | evidently intended | confidence | as-written member | corrected member |
|---|---|---|---|---|---|---|
| src/models/room.model.js:34 | the participant `role` enum is `OWNER`, `ADMIN`, `MEMBER`, but the controllers create participants with roles `INITIATOR` and `PARTICIPANT` (src/controller/chat.controller.js:250-259, :331-335) | any direct room created by `createDirectRoom`: its first participant has role `INITIATOR`, so the save fails validation | the enum also lists `INITIATOR` and `PARTICIPANT`, so every room the controllers build can be saved | high, not executed | RoomModel.InitiatorRefusedAsWritten, RoomModel.ParticipantRefusedAsWritten, ChatController.DirectRoomRefusedAsWritten, ChatController.GroupRoomRefusedAsWritten, ChatController.AdminChatRefusedAsWritten | RoomModel.AsWrittenImpliesValid, ChatController.CreateDirectRoom, ChatController.NewGroupRoom, ChatController.CreateAdminChat |
| src/utils/cloudinary.js:108-178 | `performUpload` throws for a missing file before `attempts++`, so the retry test `attempts < maxAttempts` always passes and the upload is retried forever, every 500 ms | a path to a file that does not exist: `attempts` stays 0 and each retry waits `1000 * 2^-1` = 500 ms | the attempt is counted first, so a missing file gives up after three attempts, like a failing upload | high, not executed | Cloudinary.PerformUploadAsWritten | Cloudinary.PerformUpload |
| src/models/tenant.model.js:53-56 | `inviteToken` declares only `token` and `expiresAt`, so saving the tenant drops the `invitedEmail`, `invitedPhone`, `acceptedAt` and `acceptedBy` that `registerWithInvite` reads and writes (src/controller/auth.controller.js:457, :486-494, :519-523) | any workspace with a generated invite and a complete, valid registration through its link: the new account has no e-mail and its save fails; and an acceptance is never stored, so the accepted-invite check at :457 never fires | the schema declares all six invite fields, so a stored invite names the invited person and records its acceptance, making each link single-use | high, not executed | TenantController.StoredInviteAsWritten, AuthController.NoJoinAsWritten | AuthController.JoinSpec, AuthController.JoinSucceeds, AuthController.InviteIsSingleUse |
