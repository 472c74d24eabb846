# Chat backend: a Dafny model

This project models the server side of a real-time chat application. The server is an
Express/Mongoose REST API with a socket.io channel. Users sign in with a JWT access token
(cookie or `Authorization: Bearer` header) or through Google/GitHub OAuth. They hold
one-on-one and group chats and exchange messages, which may carry uploaded image
attachments. Most changes to a chat are pushed to the affected users over the socket
connection, in the room named after each user's id; leaving a group is not announced.

The model is functional:

- The database is a `Store`: three sequences, users, chats and chat messages, in insertion
  order.
- Each request handler is a pure function from a store, the requester's id and the request's
  parameters to an `Effect`. An `Effect` holds the new store, the socket notifications
  emitted (room, event, payload), the local files removed, and the HTTP reply or thrown
  error.
- Fresh database ids, the clock (`now`), the request's protocol and host, and the
  token verifier (`jwt.verify`) are parameters.
- The socket server is a map from room names to connection ids, plus the state of each
  connection.

The files follow the repository's structure:

| file | module | models |
|---|---|---|
| `base.dfy` | `Base` | `undefined`/value, the `(status, message)` of a thrown `ApiError`, results |
| `strs.dfy` | `Strs` | the string operations the source uses (`replace`, `split`, `trim`, `toLowerCase`, `lastIndexOf`, number printing) |
| `constants.dfy` | `Constants` | roles, login types, socket event names |
| `api_error.dfy` | `ApiErrors` | the `ApiError` record |
| `error_handler.dfy` | `ErrorHandling` | the central error handler |
| `validate.dfy` | `Validation` | the validation-result middleware |
| `helpers.dfy` | `Helpers` | field filtering, pagination, file paths, cleanup of unused uploads |
| `upload.dfy` | `Upload` | the upload middleware's storage settings and file naming |
| `sorting.dfy` | `Sorting` | a `$sort: { key: -1 }` stage |
| `domain.dfy` | `Domain` | records, store, lookups, the `$lookup` views, notifications |
| `chats.dfy` | `ChatHandlers` | the chat controller |
| `messages.dfy` | `MessageHandlers` | the message controller |
| `sockets.dfy` | `Sockets` | the socket.io connection handler, rooms and events |
| `auth.dfy` | `Auth` | the authentication and authorisation middlewares |
| `oauth.dfy` | `OAuth` | the Google and GitHub strategies and the session (de)serialisation |

Two invariants are stated as predicates and carried through the handlers:

- `Domain.WellFormed`: ids are unique, as the `_id` index guarantees.
- `MessageHandlers.LastMessagesResolve`: a chat's `lastMessage` names a stored message of that
  chat.

The socket model keeps `Sockets.Coherent`: only authenticated connections sit in rooms, and
each sits in its user's room. The OAuth model keeps `OAuth.Accounts`: ids, emails and
usernames are unique, as the user schema's unique indexes demand.

Some behaviour of the code is modelled as written and stated as such:

- Any authenticated user may delete any one-on-one chat by id: `deleteOneOnOneChat` checks
  no membership.
- A connection can join any room, including a chat it does not belong to or another user's
  room: `joinChat` checks nothing.
- A message is looked up by id without checking that it belongs to the chat named in the URL
  (`MessageHandlers.DeleteMessageAnyChat`). This is the second finding below, and
  `MessageHandlers.DeleteMessage` models the corrected handler.
- A user who leaves a group keeps its admin field.
- `sendMessage` does not check that the sender takes part in the chat.

## Model

| member | source | states |
|---|---|---|
| Constants.EventOfWireName | backend/src/constants.ts:26-38 | a wire name denotes at most one event, and the event it denotes carries that name |
| Constants.WireNameRoundTrip | backend/src/constants.ts:26-38 | every socket event is recovered from its wire name |
| Constants.WireNamesDistinct | backend/src/constants.ts:26-38 | two events share a wire name only if they are the same event |
| Constants.EnumerationsComplete | backend/src/constants.ts:7-41 | the role, login-type and event lists hold every member exactly once; there are 11 events; the temporary-token lifetime is 20 minutes |
| Constants.LoginTypeDisplay | backend/src/passport/index.ts:69 | the displayed login type has the same length as its name and no underscore |
| Constants.EmailPasswordDisplay | backend/src/passport/index.ts:69 | `EMAIL_PASSWORD` displays as "email password" |
| Constants.SocialDisplay | backend/src/passport/index.ts:130 | `GOOGLE` and `GITHUB` display as "google" and "github" |
| ApiErrors.NewApiError | backend/src/utils/ApiError.ts:13-31 | arguments left out take their defaults ("Something went wrong", no errors, a captured stack); `success` is false and `data` null |
| ApiErrors.FromHttpError | backend/src/utils/ApiError.ts:13-24 | a thrown `ApiError(status, message)` keeps both and has no errors |
| ErrorHandling.Normalise | backend/src/middlewares/error.middlewares.ts:16-23 | an `ApiError` passes unchanged; any other error gets its truthy status code, else 400 for a database error and 500 otherwise, and its message or the default |
| ErrorHandling.ErrorHandler | backend/src/middlewares/error.middlewares.ts:25-37 | the response is sent with the normalised error's status and carries its fields; the stack is included exactly in development |
| ErrorHandling.NormaliseIdempotent | backend/src/middlewares/error.middlewares.ts:16-23 | normalising twice is normalising once; an `ApiError` is answered with its own status |
| ErrorHandling.OtherErrorStatus | backend/src/middlewares/error.middlewares.ts:16-37 | a foreign error is answered with its own status, 400 or 500, a non-empty message and `success` false |
| Validation.ExtractErrors | backend/src/validators/validate.ts:11-20 | one entry per error in order: `{ path: msg }` for a field error, `{ general: msg }` otherwise |
| Validation.Validate | backend/src/validators/validate.ts:5-22 | the request proceeds iff there are no errors; otherwise 422 "Received data is not valid" with the extracted entries |
| Validation.ExtractErrorsAppend | backend/src/validators/validate.ts:13-20 | extraction distributes over concatenation |
| Helpers.Picked | backend/src/utils/helpers.ts:46-52 | a field is copied iff its trimmed name is a key, and it is read and stored under its untrimmed name |
| Helpers.FilterObject | backend/src/utils/helpers.ts:45-57 | the picked fields when any matched, otherwise the original object |
| Helpers.FilterObjectKeys | backend/src/utils/helpers.ts:44-59 | objects are filtered one by one, keeping their number and order |
| Helpers.SliceIndex | backend/src/utils/helpers.ts:67-70 | a non-negative bound is clamped to the length; a negative bound counts from the end and is floored at 0 |
| Helpers.Slice | backend/src/utils/helpers.ts:67-70 | the sub-sequence between the normalised bounds, or empty when they cross; never longer than its bounds allow |
| Helpers.CeilDiv | backend/src/utils/helpers.ts:65 | the page count is the least number of pages of `limit` items that cover all items |
| Helpers.PageStart | backend/src/utils/helpers.ts:62 | page `p` starts where page `p - 1` ends |
| Helpers.PaginatedPayload | backend/src/utils/helpers.ts:61-83 | for page ≥ 1, the page's items are the clamped window `[(page-1)*limit, page*limit)`; the counts and the previous/next flags match it |
| Helpers.PagesUpToPrefix | backend/src/utils/helpers.ts:61-83 | pages `1..k` together are the first `k*limit` items |
| Helpers.PagesReassemble | backend/src/utils/helpers.ts:61-83 | reading every page in order gives back exactly the input |
| Helpers.MongoosePaginationOptions | backend/src/utils/helpers.ts:148-166 | page and limit default to 1 and 10 and are at least 1; the caller's labels win over the default paging-counter label |
| Helpers.FieldPaths | backend/src/utils/helpers.ts:131-141 | exactly the files of every upload field are listed |
| Helpers.UnusedUploads | backend/src/utils/helpers.ts:120-146 | after a failure, exactly the single upload and every file of every field are removed, the single one first |
| Helpers.LocalPath | backend/src/utils/helpers.ts:95-97 | a local path is `public/images/` followed by the file name |
| Helpers.StaticFilePath | backend/src/utils/helpers.ts:88-90 | the URL starts with `<protocol>://<host>`, ends in `/images/<file>`, and has nothing else in between |
| Helpers.LocalPathInjective | backend/src/utils/helpers.ts:95-97 | two files share a local path only if they have the same name |
| Upload.Extension | backend/src/middlewares/multer.middlewares.ts:21-26 | the extension is empty iff the name has no `.`; otherwise it runs from the last `.` to the end |
| Upload.Normalised | backend/src/middlewares/multer.middlewares.ts:28-31 | the name is lower-cased with every space turned into `-` |
| Upload.BaseName | backend/src/middlewares/multer.middlewares.ts:28-32 | the stem is the normalised name up to its first `.` |
| Upload.StoredName | backend/src/middlewares/multer.middlewares.ts:34-40 | the stored name is the stem, then the decimal time followed by the decimal random number, then the original extension |
| Upload.StoredNameKeepsExtension | backend/src/middlewares/multer.middlewares.ts:21-40 | the stored file's extension is the uploaded file's extension |
| Sorting.SortDesc | backend/src/controllers/chat.controllers.ts:570-574 | the result is ordered by key, largest first, and is a permutation of the input |
| Domain.Filter | backend/src/controllers/chat.controllers.ts:112-117 | exactly the elements that satisfy the predicate are kept |
| Domain.FilterCount | backend/src/controllers/chat.controllers.ts:105-107 | filtering keeps each kept element as often as it occurs |
| Domain.FilterAppend | backend/src/controllers/chat.controllers.ts:21-38 | filtering keeps order: a concatenation filters to the concatenation of its filtered parts |
| Domain.Find | backend/src/controllers/chat.controllers.ts:409-412 | the found element is the first that matches; nothing is found iff nothing matches |
| Domain.Pull | backend/src/controllers/chat.controllers.ts:442-448 | `$pull` removes every occurrence of the value and keeps every other value as often as it occurred |
| Domain.PushThenPull | backend/src/controllers/chat.controllers.ts:488-494 | pulling a value just pushed onto a list without it restores the list |
| Domain.Dedup | backend/src/controllers/chat.controllers.ts:220 | `new Set` keeps each member once, and keeps every member |
| Domain.DedupDistinct | backend/src/controllers/chat.controllers.ts:220 | a list without repeats passes through `new Set` unchanged, order included |
| Domain.UserById | backend/src/controllers/chat.controllers.ts:137 | a user is found iff one has the id, and it is that user |
| Domain.ChatById | backend/src/controllers/message.controllers.ts:58 | a chat is found iff one has the id, and it is that chat |
| Domain.GroupChatById | backend/src/controllers/chat.controllers.ts:294-297 | the found chat has the id and is a group chat |
| Domain.MessageById | backend/src/controllers/message.controllers.ts:171-173 | a message is found iff one has the id, and it is that message |
| Domain.UpdateChat | backend/src/controllers/chat.controllers.ts:307-311 | only chats with the id change, and only as the update says |
| Domain.AttachmentPaths | backend/src/controllers/chat.controllers.ts:92-97 | exactly the local paths of the given messages' attachments |
| Domain.ViewMessage | backend/src/controllers/message.controllers.ts:28-53 | a message with the public fields (`Card`) of a stored user with the sender's id, present iff such a user exists |
| Domain.Lookup | backend/src/controllers/chat.controllers.ts:21-38 | the looked-up participants are the existing users whose id is listed, each as often as the collection holds it |
| Domain.LookupSnoc | backend/src/controllers/chat.controllers.ts:21-38 | the looked-up participants come in collection order: a user stored last is looked up last |
| Domain.ViewChat | backend/src/controllers/chat.controllers.ts:17-80 | a chat with its participants looked up (`Lookup`, so in collection order with multiplicity); its last message is resolved exactly when the id names a stored message, and then carries its sender's public fields |
| Domain.MemberIdsExact | backend/src/controllers/chat.controllers.ts:21-38 | an id is among a chat view's members iff it is listed and names an existing user |
| Domain.LookedUpIds | backend/src/controllers/chat.controllers.ts:21-38 | the ids of the users selected by a listed id are the listed ids that name a user |
| Domain.LookedUpMember | backend/src/controllers/chat.controllers.ts:21-38 | a looked-up participant is a stored user with a listed id |
| Domain.LookupDistinct | backend/src/controllers/chat.controllers.ts:21-38 | with unique user ids the looked-up participants are distinct |
| Domain.NotifyEach | backend/src/controllers/chat.controllers.ts:193-202 | one notification per listed room except the requester's, each with the same event and payload |
| Domain.NotifyEachReaches | backend/src/controllers/chat.controllers.ts:193-202 | a room is notified iff it is listed and is not the requester's, once per listing |
| ChatHandlers.SearchAvailableUsers | backend/src/controllers/chat.controllers.ts:110-131 | every other user and only other users, once each and in collection order, in public form; nothing changes |
| ChatHandlers.CreateOrGetOneOnOneChat | backend/src/controllers/chat.controllers.ts:133-207 | 404 for a missing receiver, 400 for oneself; an existing chat of the two is returned as its view with 200 "Chat retrieved successfully" and nothing changes; otherwise one chat of the two is added and the other member hears NEW_CHAT |
| ChatHandlers.OnlyReceiverNotified | backend/src/controllers/chat.controllers.ts:193-202 | with unique ids, a new one-on-one chat notifies exactly the receiver |
| ChatHandlers.CreateGroupChat | backend/src/controllers/chat.controllers.ts:209-261 | 400 when the creator is listed or all listed are one user; otherwise a group of the distinct listed users plus the creator (at least 3), whose admin is the creator, and every other member hears NEW_CHAT; with distinct listed users the members are exactly those users followed by the creator |
| ChatHandlers.DistinctMembers | backend/src/controllers/chat.controllers.ts:220-227 | the duplicate-participants refusal fires exactly when every listed participant is the same user |
| ChatHandlers.GetGroupChatDetails | backend/src/controllers/chat.controllers.ts:263-287 | the group chat with that id as a view, or 404 |
| ChatHandlers.AdminGate | backend/src/controllers/chat.controllers.ts:294-305 | 404 without such a group, 403 unless the requester is its admin, otherwise that group |
| ChatHandlers.AdminGateOnlyAdmin | backend/src/controllers/chat.controllers.ts:294-305 | only the admin of an existing group gets past the gate |
| ChatHandlers.RenameGroupChat | backend/src/controllers/chat.controllers.ts:289-341 | only the group's name and timestamp change; every existing member, the admin included, hears UPDATE_GROUP_NAME, exactly the members of the returned view and in its order |
| ChatHandlers.DeleteCascadeChatMessages | backend/src/controllers/chat.controllers.ts:86-108 | exactly the chat's messages go, every other message stays as often as it was, and exactly their attachments' files are removed |
| ChatHandlers.DropChat | backend/src/controllers/chat.controllers.ts:367-368 | the chat and its messages are gone, no chat keeps its id, and the rest is kept |
| ChatHandlers.DeleteGroupChat | backend/src/controllers/chat.controllers.ts:343-385 | the admin's deletion removes the group and its messages; every other member hears LEAVE_CHAT with the group as it was |
| ChatHandlers.DeleteOneOnOneChat | backend/src/controllers/chat.controllers.ts:387-423 | any chat with the id is deleted with its messages; the first looked-up participant other than the requester hears LEAVE_CHAT, and when there is none the reply is a 500 after the deletion |
| ChatHandlers.DeleteFoundChat | backend/src/controllers/chat.controllers.ts:406-422 | the found chat is deleted with its messages, then the first looked-up participant other than the requester hears LEAVE_CHAT, or the reply is a 500 |
| ChatHandlers.LeaveFirstOther | backend/src/controllers/chat.controllers.ts:409-420 | LEAVE_CHAT with the chat view goes to the first looked-up participant whose id is not the requester's, or the reply is a 500 when there is none |
| ChatHandlers.LeaveGroupChat | backend/src/controllers/chat.controllers.ts:425-463 | 404/400 when absent or not a member; otherwise the requester is pulled, every other entry and the admin are kept, and nobody is told |
| ChatHandlers.AddParticipant | backend/src/controllers/chat.controllers.ts:465-512 | after the admin gate, 409 for a member; otherwise the id is appended and only the new member hears NEW_CHAT |
| ChatHandlers.RemoveParticipant | backend/src/controllers/chat.controllers.ts:514-560 | after the admin gate, 400 for a non-member; otherwise the id is pulled and only that user hears LEAVE_CHAT |
| ChatHandlers.AddThenRemoveRestores | backend/src/controllers/chat.controllers.ts:465-560 | adding then removing the same member succeeds and restores every chat's participants |
| ChatHandlers.ChatsOfUser | backend/src/controllers/chat.controllers.ts:564-574 | exactly the requester's chats, each as often as stored, most recently updated first |
| ChatHandlers.GetAllChats | backend/src/controllers/chat.controllers.ts:562-582 | the requester's chats as views, most recently updated first, and nothing else |
| ChatHandlers.LeaveThenListed | backend/src/controllers/chat.controllers.ts:425-582 | a user who left a group no longer finds it among their chats |
| MessageHandlers.MessagesInChat | backend/src/controllers/message.controllers.ts:68-80 | exactly the chat's messages, each as often as stored, newest first |
| MessageHandlers.GetAllMessages | backend/src/controllers/message.controllers.ts:55-85 | 404 without the chat, 400 for a non-member; otherwise the chat's messages newest first |
| MessageHandlers.Attachments | backend/src/controllers/message.controllers.ts:100-109 | one attachment per uploaded file, in order, with its URL and local path |
| MessageHandlers.SendMessage | backend/src/controllers/message.controllers.ts:87-157 | 400 with neither content nor files, 404 without the chat; otherwise the message is stored, becomes the chat's last message, and every other participant entry hears MESSAGE_RECEIVED; both invariants are kept |
| MessageHandlers.StoreMessage | backend/src/controllers/message.controllers.ts:111-126 | the message is appended and its chat points at it, keeping both invariants |
| MessageHandlers.SendKeepsResolved | backend/src/controllers/message.controllers.ts:111-126 | pointing a chat at a message of that chat keeps every last message resolvable |
| MessageHandlers.SendNotifiesOthers | backend/src/controllers/message.controllers.ts:143-152 | a participant entry is notified iff it is not the sender, once per entry |
| MessageHandlers.Newest | backend/src/controllers/message.controllers.ts:197-201 | the found message is one of the newest; nothing is found iff there is none |
| MessageHandlers.Recomputed | backend/src/controllers/message.controllers.ts:197-205 | the new last message is a newest remaining message of the chat, or none when none remains |
| MessageHandlers.ChatOfMember | backend/src/controllers/message.controllers.ts:162-165 | the chat with the id that the requester takes part in, if any |
| MessageHandlers.DeleteMessageWith | backend/src/controllers/message.controllers.ts:159-222 | 404/404/403 for a missing chat, a missing message or another sender; otherwise exactly that message goes, the others keeping their order, its files are unlinked, and every other participant entry hears MESSAGE_DELETE |
| MessageHandlers.DeleteMessageAsWritten | backend/src/controllers/message.controllers.ts:196 | as written, no chat is ever updated by a deletion |
| MessageHandlers.DeleteMessageAnyChat | backend/src/controllers/message.controllers.ts:159-222 | with the guard corrected, deleting a message of the chat named in the request that is its last message recomputes it, so every last message stays resolvable; a message of another chat is not covered |
| MessageHandlers.DeleteMessage | backend/src/controllers/message.controllers.ts:159-222 | with the lookup confined to the named chat, a message of another chat is a 404 and everything else is the corrected handler; every last message stays resolvable, unconditionally, and ids stay unique |
| MessageHandlers.DeleteKeepsResolved | backend/src/controllers/message.controllers.ts:192-206 | with the recomputation, deleting one's own message of the chat named in the request keeps every last message resolvable |
| MessageHandlers.RemoveKeepsResolved | backend/src/controllers/message.controllers.ts:186-206 | removing the sender's message and repointing its chat exactly when it was the last message keeps every last message resolvable |
| MessageHandlers.CrossChatLeavesDangling | backend/src/controllers/message.controllers.ts:171-206 | with the guard corrected, deleting one's own message through another chat leaves the message's own chat pointing at the deleted message |
| MessageHandlers.CrossChatExample | backend/src/controllers/message.controllers.ts:171-206 | a concrete well-formed store where that happens |
| MessageHandlers.AsWrittenLeavesDanglingLastMessage | backend/src/controllers/message.controllers.ts:196 | as written, deleting the last message leaves its chat pointing at a message that no longer exists |
| Sockets.Join | backend/src/socket/index.ts:23 | joining adds exactly that connection to exactly that room |
| Sockets.HandshakeToken | backend/src/socket/index.ts:42-43 | the cookie token when it is truthy, else the handshake's auth token |
| Sockets.Authenticate | backend/src/socket/index.ts:45-60 | accepted iff the token is present, verifies and names an existing user, and that user is the one accepted; the three refusals carry their messages |
| Sockets.Connect | backend/src/socket/index.ts:39-84 | exactly one emission, to the new connection only; accepted: it joins exactly its user's room and hears CONNECTED; refused: no room changes and it hears SOCKET_ERROR with the reason or the fallback; other connections and coherence are kept |
| Sockets.OnJoinChat | backend/src/socket/index.ts:20-25 | a live connection is added to the room and nothing else changes; coherence is kept |
| Sockets.JoinChatIdempotent | backend/src/socket/index.ts:20-25 | joining a room twice is joining it once |
| Sockets.Broadcast | backend/src/socket/index.ts:27-37 | a live connection's event reaches exactly the room's other connections, with the chat id as payload |
| Sockets.OnTyping | backend/src/socket/index.ts:27-31 | TYPING goes to the room minus the sender |
| Sockets.OnStopTyping | backend/src/socket/index.ts:33-37 | STOP_TYPING goes to the room minus the sender |
| Sockets.JoinedPeersHearTyping | backend/src/socket/index.ts:20-37 | two connections in a chat room hear each other's typing and not their own |
| Sockets.OnDisconnect | backend/src/socket/index.ts:71-76 | the connection leaves every room, including its user's, and is gone; coherence is kept |
| Sockets.ConnectThenDisconnect | backend/src/socket/index.ts:39-84 | connecting and then disconnecting leaves every room as it was |
| Sockets.EmitSocketEvent | backend/src/socket/index.ts:86-93 | an emission reaches exactly the room's connections, the requester's own included |
| Sockets.NotificationReachesEveryDevice | backend/src/socket/index.ts:63-92 | a notification to a user's id reaches every live connection of that user, and only live connections |
| Auth.ExtractToken | backend/src/middlewares/auth.middlewares.ts:14-16 | the cookie token when it is truthy; else the header with its first `Bearer ` removed, or nothing without a header |
| Auth.BearerRemovedAnywhere | backend/src/middlewares/auth.middlewares.ts:16 | the first `Bearer ` is cut wherever it stands, and what surrounds it is kept |
| Auth.BearerHeaderYieldsToken | backend/src/middlewares/auth.middlewares.ts:16 | `Bearer <t>` yields `t` |
| Auth.BareHeaderIsToken | backend/src/middlewares/auth.middlewares.ts:16 | a header without `Bearer ` is the token itself |
| Auth.VerifyJWT | backend/src/middlewares/auth.middlewares.ts:13-35 | the request passes iff the token is present, verifies and names an existing user; every refusal is a 401 with a non-empty message |
| Auth.GetLoggedInUserOrIgnore | backend/src/middlewares/auth.middlewares.ts:43-59 | never fails; any user found is a stored user |
| Auth.OptionalAgreesWithRequired | backend/src/middlewares/auth.middlewares.ts:13-59 | the optional lookup finds a user iff the required one passes, and the same user |
| Auth.VerifyPermission | backend/src/middlewares/auth.middlewares.ts:67-77 | 401 without a user; otherwise the request passes iff the user's role is listed, else 403 |
| Auth.PermissionByRole | backend/src/middlewares/auth.middlewares.ts:67-77 | an admin-only route admits exactly admins, both roles admit everyone, no roles admit nobody |
| Auth.AvoidInProduction | backend/src/middlewares/auth.middlewares.ts:79-88 | the request passes iff `NODE_ENV` is `development`, else 403 |
| OAuth.Canonical | backend/src/models/user.models.ts:62-76 | a stored username or email has no upper-case letter and no surrounding space |
| OAuth.CanonicalSpan | backend/src/models/user.models.ts:62-76 | the stored value is one contiguous slice of the input, lower-cased, with only spaces dropped around it |
| OAuth.CanonicalFixed | backend/src/models/user.models.ts:62-76 | a value with no upper-case letter and no surrounding space is stored as it is |
| OAuth.CanonicalIdempotent | backend/src/models/user.models.ts:62-76 | canonicalising twice is canonicalising once, so a saved value matches a query for it |
| OAuth.ByEmail | backend/src/passport/index.ts:62 | a user is found iff one has the canonical email, and it has that email; with unique emails it is the user with that email |
| OAuth.RegisteredWith | backend/src/passport/index.ts:66-72 | the refusal is "You have previously registered using ", the displayed login type, and the request to use the same login method, with nothing else between |
| OAuth.Registration | backend/src/passport/index.ts:77-88 | a new user has a verified email, the USER role, the provider's login type and picture, and no local avatar |
| OAuth.Create | backend/src/passport/index.ts:77-92 | the user is added iff its username is non-empty and free; otherwise a 500 with the strategy's prefix and nothing is written; the unique indexes are kept |
| OAuth.Existing | backend/src/passport/index.ts:64-75 | a known email signs in iff it registered with this provider, and nothing is written |
| OAuth.GoogleVerify | backend/src/passport/index.ts:53-95 | with unique emails, a known email gives exactly the account with that email, signed in iff it registered through Google and refused naming its login type otherwise, and nothing is written; a signed-in user is stored, came through Google and has the profile's email; a 500 only when the email's local part is empty or taken |
| OAuth.GitHubVerify | backend/src/passport/index.ts:106-160 | 400 without a public email; with unique emails, a known email gives exactly the account with that email, signed in iff it registered through GitHub; a new user gets the GitHub username, or the email's local part when that is taken |
| OAuth.FindAppended | backend/src/passport/index.ts:62 | the email of a just-registered user finds that user |
| OAuth.GoogleSignInStable | backend/src/passport/index.ts:53-95 | signing in again with the same Google profile returns the same user and writes nothing |
| OAuth.GitHubSignInStable | backend/src/passport/index.ts:106-160 | the same for GitHub |
| OAuth.GitHubAccountRefusedByGoogle | backend/src/passport/index.ts:64-73 | a GitHub account's email is refused by Google with a 400 naming GitHub |
| OAuth.GitHubFallbackCollides | backend/src/passport/index.ts:138-157 | when both the GitHub username and the email's local part are taken, registration fails with a 500 |
| OAuth.SerializeUser | backend/src/passport/index.ts:26-29 | the session keeps the user's id |
| OAuth.DeserializeUser | backend/src/passport/index.ts:32-43 | the user with the id, or 404 "User does not exist" |
| OAuth.SessionRoundTrip | backend/src/passport/index.ts:26-43 | with unique ids, deserialising a serialised user gives back that user |

## Left out

- Database and file-system I/O are not performed. File removal (`removeLocalFile`) is the
  `unlinked` list of an `Effect`, and its logging is not modelled.
- Concurrency is not modelled. Each handler runs as one atomic step, and the interleaving
  of a handler's awaits with other requests is not represented.
- Aggregation pipelines are modelled by what they return, not stage by stage. The projections
  that drop secrets are implicit, because `User` has no secret fields.
- The `500 "Internal server error"` branches after a pipeline finds no document are left
  out. The document was written just before, so these branches cannot be reached without
  concurrency.
- `jwt.verify` is a parameter, and a token's signature, expiry and claims are not modelled.
  An empty token is never passed to it, because it rejects such a token itself. bcrypt
  hashing of the provider id stored as a password is not modelled: `User` carries no
  password.
- Cookie parsing is not modelled. The parsed `accessToken` cookie is the input.
- The request validators that run before the chat and message routes (id formats, the
  participants array, the group name) are not modelled. Where a handler relies on them,
  they appear as preconditions: `ChatHandlers.CreateGroupChat` requires 2 to 100
  participants, as the validator demands.
- A malformed id passed to `new mongoose.Types.ObjectId(...)` throws before any lookup, and
  that is not modelled: ids are plain strings.
- Fresh ids and the clock are parameters. Id freshness is a precondition, as the database
  guarantees it.
- The upload size limit of 1 MB (multer.middlewares.ts:47-49) is not modelled: multer
  enforces it while it reads the request body, and the body bytes are not part of the model.
- `getRandomNumber` is not modelled, because it works on floating-point numbers. In
  `Upload.StoredName` the random number is a parameter in `[0, 100000]`.
- Helpers.PaginatedPayload: requires `limit >= 1`. With a zero or negative limit the source
  divides by zero or negates the window, and that floating-point behaviour is not modelled.
- Case folding covers ASCII letters only, and there is no Unicode normalisation. Likewise
  `trim` (in `Strs.Trim`, the schema's `trim` option and `filterObjectKeys`) strips only
  the six ASCII whitespace characters of `Strs.IsSpace`; JavaScript also strips the other
  Unicode spaces and line terminators.
- `$lookup` returns the participants in users-collection order in this model. MongoDB does
  not guarantee that order, so the order-dependent promises (`Domain.LookupSnoc`, the
  participant `DeleteOneOnOneChat` notifies) assume it.
- `Sockets`: the room socket.io gives every connection under its own id is not modelled,
  because no handler addresses it. A room that becomes empty is kept as an empty set rather
  than deleted, which no emission can tell apart.
- `Sockets.Connect` takes the socket's cookie and `auth` token as optional strings, so a
  non-string `auth.token` is not modelled. The handshake's user lookup reads the same
  stored users as the handlers.
- `OAuth.GoogleVerify`: the Google profile always carries an email (the `email` scope is
  requested). A profile without one is not modelled.
- `OAuth.Create`: only the database's two rejections are modelled, an empty (required) or
  taken (unique) username. The email cannot collide, because the strategy has just looked
  it up. The rejection text is the `dbError` parameter.
- `OAuth.Canonical` is applied to query filters as well as to saved values: the schema's
  `lowercase` and `trim` setters also run when a query is cast.
- `middlewares/error.middleware.ts`, a second error handler with the same role, is not
  part of this model: the application uses `error.middlewares.ts`.
- `ErrorHandling.ErrorHandler` leaves the removal of a failed request's uploads to
  `Helpers.UnusedUploads` and does not model the logger.
- Updates by id (`findByIdAndUpdate`, `findByIdAndDelete`) act on every record with that id.
  This agrees with the database whenever ids are unique, which `Domain.WellFormed` states.
- `filterObjectKeys` on objects with inherited (prototype) keys is not modelled: only own
  keys are seen.
- Timestamps are integers. Every update and creation sets `updatedAt` (and `createdAt` on
  creation) to `now`, as Mongoose's `timestamps` option does.

## Findings

| source | as written | input that shows it | evidently intended | confidence | as-written member | corrected member |
|---|---|---|---|---|---|---|
| backend/src/controllers/message.controllers.ts:196 | the guard compares `chat.lastMessage?.toString()`, a string, with `message._id`, an ObjectId, under `===`, which never holds, so the chat's last message is never recomputed | a participant deletes their own message that is the chat's `lastMessage` | recompute the last message exactly when the deleted message is the chat's last message, so the chat named in the request never points at the deleted message | not executed | MessageHandlers.AsWrittenLeavesDanglingLastMessage | MessageHandlers.DeleteMessageAnyChat |
| backend/src/controllers/message.controllers.ts:171-173 | the message is found by id alone, while only the chat named in the URL is recomputed, so a message of another chat can be deleted and its own chat left pointing at it | a participant of chats A and B deletes, through A, their own message that is B's `lastMessage` | look the message up among the named chat's messages, so that case is a 404 and no chat points at a deleted message | not executed | MessageHandlers.CrossChatLeavesDangling | MessageHandlers.DeleteMessage |
