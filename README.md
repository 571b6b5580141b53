# DevConnect core in Dafny

DevConnect is a developer network: users publish posts with code snippets,
follow each other, post and apply for jobs, and chat in real time. This
project models the logic under its HTTP, Mongo and JSX layers:

- The **chat store and real-time relay** (`socketHandlers.js` over the Chat
  schema). `SocketHandlers.ChatRelay` is a class holding four things: the
  Chat collection, the Socket.IO room registry, the identity of each live
  connection, and the outbox of emitted events, each tagged with the
  audience Socket.IO delivers it to. Its methods are the socket event
  handlers.
- The **Mongoose schemas** (`Chat.js`, `Post.js`, `User.js`, `Job.js`).
  - Each document is a datatype with its defaults and validators.
  - Each collection is a class (`Chats`, `Posts`, `Users`, `Jobs`) whose
    map of documents the controllers reassign.
  - Each class carries an invariant: chats keep message ids that increase along
    the history and stay below the id counter; users keep valid documents,
    unique usernames and e-mails, and a consistent follow graph; jobs keep at most one
    application per user.
- The **controllers** (`chatController.js`, `postController.js`,
  `userController.js`, `jobController.js`, `authController.js`) and the
  **auth middleware** (`auth.js`). Each endpoint is a method or function
  over its collection returning a `Reply`: a status plus data or an error
  message.
- The **client logic**:
  - helpers: `truncateText`, `getInitials`;
  - the read-receipt icon;
  - the chat sidebar filter and selectors;
  - the messages page, a class with the `new_message` listener and the send
    handler;
  - the job and post form updaters and the submit cleaning;
  - the job card's salary line and skill badges.

The JavaScript string built-ins the code relies on are written out in
`Text` over `seq<char>`: `trim`, `toLowerCase`, `toUpperCase`, `includes`,
`startsWith`, `split`, `join`, `substring`, and one-character `replace`.

Calls into code that is not modelled are parameters:

- `JSON.parse` results come in as `Option` values, where None means it throws.
- `bcrypt.hash` results come in as a value, and `bcrypt.compare` as a function.
- `jwt.verify` is a function from tokens to user ids.
- The GitHub API results come in as an `Option<GithubUser>`.
- `parseInt` and `toLocaleString` are functions.
- A fresh ObjectId is a parameter, with the precondition that it is not yet in use.

## Model

| member | source | states |
|---|---|---|
| SocketHandlers.HandshakeIdentity | Server/src/socket/socketHandlers.js:4-10 | a missing or empty handshake user id becomes 'temp-user' and a missing name 'Anonymous'; supplied values are kept |
| SocketHandlers.AddMember | Server/src/socket/socketHandlers.js:21-24 | joining adds the connection to that room and to no other |
| SocketHandlers.RemoveMember | Server/src/socket/socketHandlers.js:27-30 | leaving removes the connection from that room and no other |
| SocketHandlers.RemoveEverywhere | Server/src/socket/socketHandlers.js:145 | on disconnect the connection leaves every room |
| SocketHandlers.JoinThenLeave | Server/src/socket/socketHandlers.js:21-30 | join followed by leave restores every room except that the connection is out of the joined one |
| SocketHandlers.Recipients | Server/src/socket/socketHandlers.js:39-138 | `socket.emit` reaches only the emitter; `io.to` reaches the room; `socket.to` and `socket.broadcast` never reach the emitter. The handlers' ensures and `NotificationsReach` state their audiences through it |
| SocketHandlers.NotificationsReach | Server/src/socket/socketHandlers.js:76-86 | every notification goes to the personal room of a participant other than the sender and reaches exactly the connections in that room; every connection in such a room is reached by one of them |
| SocketHandlers.Notifications | Server/src/socket/socketHandlers.js:75-86 | the events the participants' `forEach` emits; no contract of its own: `NotificationsShape`, `NotificationCount` and `NotificationsReach` state what it holds |
| SocketHandlers.NotificationsShape | Server/src/socket/socketHandlers.js:76-86 | every notification carries the chat id, the preview and the sender name, and goes to the personal room of a participant other than the sender |
| SocketHandlers.NotificationCount | Server/src/socket/socketHandlers.js:76-86 | the sender gets no notification; every other participant gets as many as it occurs in the participant list |
| SocketHandlers.Compose | Server/src/socket/socketHandlers.js:49-56 | the new message is by the connection's user and read by that user only |
| SocketHandlers.ReadTarget | Server/src/socket/socketHandlers.js:118-121 | a receipt applies exactly when the chat and the message exist and the user has not read the message yet, and then to the first message with that id |
| SocketHandlers.MarkReadTwice | Server/src/socket/socketHandlers.js:121-129 | once a message is marked read by a user, the same receipt finds nothing to do |
| SocketHandlers.FindSameIds | Server/src/socket/socketHandlers.js:119 | `messages.id(x)` depends only on the message ids |
| SocketHandlers.StoreAppendKeepsWellFormed | Server/src/socket/socketHandlers.js:58-60 | saving a chat with one more message, under the next id, keeps every chat of the store well formed as the counter moves on |
| SocketHandlers.WellFormedMonotone | Server/src/socket/socketHandlers.js:58-59 | raising the id bound keeps every chat well formed |
| SocketHandlers.ChatRelay.constructor | Server/src/socket/socketHandlers.js:3 | the relay starts with no rooms, connections or events |
| SocketHandlers.ChatRelay.Connect | Server/src/socket/socketHandlers.js:4-18 | a connection gets the handshake identity and joins its personal room, emitting nothing; it is then among the recipients of anything sent to that room |
| SocketHandlers.ChatRelay.JoinChat | Server/src/socket/socketHandlers.js:21-24 | only the chat room gains the connection; no state or event otherwise |
| SocketHandlers.ChatRelay.LeaveChat | Server/src/socket/socketHandlers.js:27-30 | only the chat room loses the connection |
| SocketHandlers.ChatRelay.SendMessage | Server/src/socket/socketHandlers.js:33-92 | unknown chat: one 'Chat not found' error to the sender only and no change. Message rejected by validation: one 'Failed to send message' error. Otherwise exactly one message is appended (sender, readBy [sender], the type or 'text'), lastMessage is its id, and the events are one `new_message` to the chat room then one 100-character notification per other participant. Both errors reach the sending connection and no other |
| SocketHandlers.ChatRelay.Notify | Server/src/socket/socketHandlers.js:76-86 | the loop over the participants appends exactly the notification list: one per participant other than the sender, in participant order; rooms and sessions are unchanged |
| SocketHandlers.ChatRelay.Typing | Server/src/socket/socketHandlers.js:95-111 | one `user_typing` with the flag, received by exactly the room's members other than the typing connection; no chat changes |
| SocketHandlers.ChatRelay.MarkMessageRead | Server/src/socket/socketHandlers.js:114-133 | the reader is added to readBy only if absent, with one `message_read` that the acting connection does not receive; a missing chat, a missing message or a repeat changes nothing and emits nothing |
| SocketHandlers.ChatRelay.UserOnline | Server/src/socket/socketHandlers.js:136-143 | one 'online' status, received by exactly the other live connections |
| SocketHandlers.ChatRelay.Disconnect | Server/src/socket/socketHandlers.js:145-153 | one 'offline' status, received by exactly the connections live before it other than itself; the connection leaves all rooms and its session ends |
| ChatModel.ParseMessageType | Server/src/models/Chat.js:13-17 | the enum accepts exactly text/code/image/file, and the parsed type names the input |
| ChatModel.ParseMessageTypeName | Server/src/models/Chat.js:13-17 | parsing a type's name gives the type back |
| ChatModel.StoredMessageType | Server/src/models/Chat.js:13-17 | a missing type is 'text'; a supplied one must pass the enum |
| ChatModel.NewChat | Server/src/models/Chat.js:31-55 | a new chat has no messages; isGroupChat defaults to false; it is valid iff a group has a group name |
| ChatModel.AppendMessage | Server/src/socket/socketHandlers.js:58-59 | push plus lastMessage: the messages grow by exactly the new one and lastMessage is its id; the participants and the group fields are unchanged |
| ChatModel.AppendKeepsWellFormed | Server/src/socket/socketHandlers.js:58-60 | appending a valid message with the next id keeps the id and lastMessage invariants |
| ChatModel.AppendOrder | Server/src/socket/socketHandlers.js:58-59 | two sends are stored in order after the earlier history |
| ChatModel.FindMessage | Server/src/socket/socketHandlers.js:119 | finds the first message with the id, or reports that none has it |
| ChatModel.AddReader | Server/src/socket/socketHandlers.js:121-122 | readBy gains the user only if absent |
| ChatModel.AddReaderIdempotent | Server/src/socket/socketHandlers.js:121-122 | marking twice equals marking once; the reader then occurs exactly as often as before, or once |
| ChatModel.MarkRead | Server/src/socket/socketHandlers.js:119-123 | only readBy of the one message changes |
| ChatModel.MarkReadKeepsWellFormed | Server/src/socket/socketHandlers.js:121-123 | a receipt keeps the chat well formed |
| ChatModel.Chats.constructor | Server/src/models/Chat.js:60 | an empty collection satisfies the invariant |
| ChatController.DirectBetween | Server/src/controllers/chatController.js:34-37 | the `findOne` filter: not a group, both users among the participants, exactly two participants; a predicate without a contract, used by `GetOrCreateDirectChat` and `CreateKeepsDirectUnique` |
| ChatController.GetOrCreateDirectChat | Server/src/controllers/chatController.js:29-58 | an existing non-group two-member chat containing both users is returned unchanged (200); only when none exists is a chat [me, other] with isGroupChat false created (201); direct chats stay unique per pair |
| ChatController.CreateKeepsDirectUnique | Server/src/controllers/chatController.js:34-51 | creating only when no chat matches keeps direct chats unique per unordered pair |
| ChatController.CreateGroupChat | Server/src/controllers/chatController.js:71-88 | 400 for a missing name or an absent or empty participant list, with nothing stored; else the participants given followed by the creator, isGroupChat true, the creator as admin (201) |
| ChatController.Reverse | Server/src/controllers/chatController.js:134 | position k of the result is position n-1-k of the input |
| ChatController.SliceBound | Server/src/controllers/chatController.js:133 | a bound inside [0, n] is kept, a negative one counts back from n, and the result is clamped to [0, n] |
| ChatController.GetChatMessages | Server/src/controllers/chatController.js:107-148 | 404 'Chat not found'; 403 for a non-participant; otherwise a 200 page |
| ChatController.PaginationSpec | Server/src/controllers/chatController.js:131-146 | for page >= 1 the page is the reverse of messages[start..min(start+limit, n)], and hasMore iff start+limit < n |
| ChatController.FirstPageIsWholeHistory | Server/src/controllers/chatController.js:107-146 | page 1 of a chat with at most `limit` messages is the whole history, newest first, and hasMore is false |
| ChatController.Dedup | Server/src/controllers/chatController.js:181 | `[...new Set(s)]` on values keeps exactly the elements of s |
| ChatController.DedupNoDuplicates | Server/src/controllers/chatController.js:181 | the de-duplicated list has no repeats |
| ChatController.DedupPrefix | Server/src/controllers/chatController.js:181 | appending elements only extends the de-duplicated list at its end |
| ChatController.DedupOfDistinct | Server/src/controllers/chatController.js:181 | a list without repeats is unchanged |
| ChatController.UnionParticipantsSpec | Server/src/controllers/chatController.js:181 | the intended union holds exactly the old and new ids, has no repeats, and keeps duplicate-free existing participants first and in order |
| ChatController.AsWrittenUnionDuplicates | Server/src/controllers/chatController.js:181 | as written, re-adding member b to [a, b] gives [a, b, b]; the intended union gives [a, b] |
| ChatController.AddParticipants | Server/src/controllers/chatController.js:159-189 | 404 for an unknown chat; 500 when the chat has no admin; 403 for a non-admin; 500 when the admin sends no participants list (the spread throws); none of these changes anything. Else the participants become the intended union (200) |
| PostModel.NewPost | Server/src/models/Post.js:34-73 | the defaults (no likes, no comments, readTime 0, viewCount 0, published) and tags trimmed; valid iff the title is non-empty and at most 200, the content and author are present, and every snippet has language and code |
| PostModel.Posts.constructor | Server/src/models/Post.js:81 | an empty collection satisfies the invariant |
| PostController.CleanContent | Server/src/controllers/postController.js:46-50 | the split/includes/slice/join/trim pipeline; no contract of its own: `CleanContentSpec` gives its closed form |
| PostController.CleanContentSpec | Server/src/controllers/postController.js:43-50 | if the text before the first line break contains the username, the result is the trimmed text after it ("" for one line); otherwise the content is unchanged |
| PostController.CleanContentEmptyUsername | Server/src/controllers/postController.js:47 | with an empty username the first line is always dropped |
| PostController.StoredSnippets | Server/src/controllers/postController.js:61-73 | snippets are [] when missing, empty or unparseable, else the array or the parsed JSON |
| PostController.CreatePost | Server/src/controllers/postController.js:6-100 | 401 without a user; 400 without a title or content; 500 for an invalid cleaned post; else the post with trimmed title, cleaned content, comma-list tags and the snippets (201); nothing stored on error |
| PostController.GetPost | Server/src/controllers/postController.js:176-197 | 404 for an unknown post; else viewCount rises by exactly one and nothing else changes |
| PostController.ApplyPatch | Server/src/controllers/postController.js:227-231 | a patch of the editable fields leaves the author, likes, comments, readTime and viewCount as they were |
| PostController.ApplyEmptyPatch | Server/src/controllers/postController.js:227-231 | an empty body changes nothing |
| PostController.UpdatePost | Server/src/controllers/postController.js:208-236 | 404 for an unknown post and 403 for a non-author, with no change; else the patched post is stored if valid (500 otherwise) |
| PostController.DeletePost | Server/src/controllers/postController.js:247-271 | 404 for an unknown post and 403 for a non-author, with no change; else exactly that post is removed |
| PostController.ToggledLikes | Server/src/controllers/postController.js:293-303 | the requester is in the result iff they were not in the likes; other users' likes are kept; unlike removes every occurrence and like appends once |
| PostController.ToggleTwice | Server/src/controllers/postController.js:293-303 | two toggles restore membership, and restore the list when the user had not liked |
| PostController.ToggleLike | Server/src/controllers/postController.js:282-313 | 404 for an unknown post; else likes toggled, with isLiked = !hadLiked and likeCount = the new length |
| PostController.AddComment | Server/src/controllers/postController.js:324-353 | 404 for an unknown post; 500 for an invalid comment; else exactly one comment {requester, content} is appended and the reply is the last comment |
| UserModel.Normalize | Server/src/models/User.js:5-36 | the setters trim the username and skills and lower-case the e-mail; no other field changes |
| UserModel.NormalizeIdempotent | Server/src/models/User.js:5-36 | a normalised document is a fixed point of the setters |
| UserModel.PasswordRequiredIff | Server/src/models/User.js:19-24 | a user passing the other validators is accepted without a password exactly when it has a GitHub id |
| UserModel.NewUser | Server/src/models/User.js:25-78 | defaults: empty avatar, no follows, not verified |
| UserModel.Users.constructor | Server/src/models/User.js:105 | an empty collection satisfies the invariant |
| UserModel.InsertKeepsValid | Server/src/models/User.js:5-17 | inserting a valid user without follows and with an unused username and e-mail keeps the collection invariant |
| UserController.ProfileOf | Server/src/controllers/userController.js:25-49 | the id, username, e-mail, avatar, bio, skills, website and location are the stored ones; the counts are the list lengths; missing social links read as {} |
| UserController.GetUserProfile | Server/src/controllers/userController.js:6-55 | 404 for an unknown username; else that user's profile |
| UserController.UpdateProfile | Server/src/controllers/userController.js:66-85 | unparseable socialLinks gives 500. Else skills become the trimmed comma list ([] when absent) and socialLinks the parsed object ({} when absent); bio, website and location change only when supplied; the result is stored if valid |
| UserController.AfterToggle | Server/src/controllers/userController.js:118-134 | the documents after a toggle: the same users, every user other than me and target unchanged, only me's following and target's followers changed |
| UserController.ToggleSpec | Server/src/controllers/userController.js:118-134 | the toggle flips whether me follows target and no other pair; only the two lists change; the follow graph stays closed and mutually consistent |
| UserController.ToggleCounts | Server/src/controllers/userController.js:118-134 | a follow raises the target's followerCount and me's followingCount by one; an unfollow lowers both |
| UserController.ToggleTwice | Server/src/controllers/userController.js:118-134 | two toggles restore whether me follows target |
| UserController.ToggleFollow | Server/src/controllers/userController.js:96-145 | 400 when following oneself; 404 for an unknown target; 500 for an unknown requester; none of these changes anything. Else the toggle, with isFollowing = !wasFollowing and followerCount = the new length |
| JobModel.ParseJobType | Server/src/models/Job.js:20-24 | the type enum accepts exactly the four names |
| JobModel.ParseJobTypeName | Server/src/models/Job.js:20-24 | parsing a type's name gives the type back |
| JobModel.StoredAppStatus | Server/src/models/Job.js:55-59 | a missing status is 'pending'; a supplied one must be one of the four |
| JobModel.Jobs.constructor | Server/src/models/Job.js:73 | an empty collection satisfies the invariant |
| JobController.BuildJob | Server/src/controllers/jobController.js:7-32 | a job is built exactly when the type is one of the enum names; it then has that type and is posted by the requester (`BuildJobSpec` gives the other fields) |
| JobController.BuildJobSpec | Server/src/controllers/jobController.js:20-32 | remote iff the text is exactly 'true'; requirements and skills are trimmed comma lists; no expiry date unless given; USD unless a currency is given; active; no applications |
| JobController.BuildJobValid | Server/src/controllers/jobController.js:20-32 | a built job is valid iff title, company, location and description are non-empty and the poster is known |
| JobController.CreateJob | Server/src/controllers/jobController.js:5-45 | 500 for an unparseable salary, a bad type or a missing field; else the built job is stored (201) |
| JobController.RemoteFilter | Server/src/controllers/jobController.js:68-70 | no condition without the parameter; otherwise (param == 'true') |
| JobController.RemoteFilterSpec | Server/src/controllers/jobController.js:68-70 | without the parameter no job is excluded; with it, exactly the jobs whose remote flag matches |
| JobController.ApplyForJob | Server/src/controllers/jobController.js:131-169 | 404 for an unknown job; 400 for a repeat application; neither changes anything. Else exactly one pending application {user, coverLetter, resume} is appended and the one-per-user invariant holds |
| JobController.ViewsFor | Server/src/controllers/jobController.js:189-200 | the views of one job are exactly its applications by the user, paired with the job summary |
| JobController.ViewsForOrder | Server/src/controllers/jobController.js:189-200 | the views keep the order in which the job stores the applications |
| JobController.MyApplications | Server/src/controllers/jobController.js:188-201 | the `flatMap` over the queried jobs; no contract of its own: `MyApplicationsSpec`, `MyApplicationsAppend` and `MyApplicationsCount` state what it lists |
| JobController.MyApplicationsSpec | Server/src/controllers/jobController.js:188-201 | every listed entry is an application by the user to a listed job, and every such application is listed |
| JobController.MyApplicationsAppend | Server/src/controllers/jobController.js:188 | the flat map follows the job order: the list for a + b is the list for a followed by the list for b |
| JobController.ViewsForOne | Server/src/controllers/jobController.js:146-200 | with one application per user, a job contributes one entry if the user applied and none otherwise |
| JobController.MyApplicationsCount | Server/src/controllers/jobController.js:146-201 | the list has one entry per job the user applied to |
| AuthController.RegisteredUser | Server/src/controllers/authController.js:31-37 | the document: trimmed username, lower-cased e-mail, skills as the trimmed comma list, no follows |
| AuthController.Taken | Server/src/controllers/authController.js:19-21 | the `$or` query on the e-mail or username after the setters run; a predicate without a contract, used by `Register` |
| AuthController.Register | Server/src/controllers/authController.js:14-60 | 400 when the e-mail or username is taken, creating nothing; 500 when invalid; else the user is stored with the hashed password (201) |
| AuthController.Login | Server/src/controllers/authController.js:65-100 | an unknown e-mail and a wrong password get the same 401 message; a missing password is a 500; a match logs in as that user |
| AuthController.Linked | Server/src/controllers/authController.js:132-136 | linking sets the GitHub id and URL and the avatar only when empty; nothing else changes |
| AuthController.GithubNewUser | Server/src/controllers/authController.js:140-148 | the new user has the GitHub e-mail or login@github.com, no password, and isVerified true |
| AuthController.GithubMatch | Server/src/controllers/authController.js:123-128 | the `findOne` filter: the same GitHub id, or the same e-mail when GitHub reports one; a predicate without a contract, used by `GithubAuth` |
| AuthController.Clash | Server/src/models/User.js:5-18 | the unique indexes on username and e-mail reject a new document; a predicate without a contract, used by `GithubAuth` |
| AuthController.GithubAuth | Server/src/controllers/authController.js:105-174 | 400 without a code; 500 when GitHub fails. A matching user is linked if not linked yet and left alone otherwise. With no match a user is created, or 500 when it is invalid or clashes |
| AuthMiddleware.ExtractToken | Server/src/middleware/auth.js:11-13 | a token is produced only for a header starting with 'Bearer' that contains a space |
| AuthMiddleware.ExtractBearer | Server/src/middleware/auth.js:11-13 | 'Bearer t' yields t, the second space-separated field |
| AuthMiddleware.NoBearerNoToken | Server/src/middleware/auth.js:11 | a header not starting with 'Bearer' yields no token |
| AuthMiddleware.Protect | Server/src/middleware/auth.js:4-58 | 401 without a token; the request passes iff the token verifies to an existing user, and then as that user; every denial is 401 |
| AuthMiddleware.OptionalAuth | Server/src/middleware/auth.js:60-80 | without a Bearer header req.user is untouched; with one it is the verified user who exists, or null |
| AuthMiddleware.OptionalAgreesWithProtect | Server/src/middleware/auth.js:4-80 | the optional gate sets a user exactly when protect would pass that user |
| Text.TrimSpec | Server/src/controllers/postController.js:49-54 | trim removes exactly a run of white space at each end |
| Text.TrimIdempotent | Server/src/models/User.js:9 | trimming twice is trimming once |
| Text.TrimEmptyIff | Client/src/pages/Messages.jsx:73 | a string trims to "" iff it is all white space |
| Text.IncludesIff | Server/src/controllers/postController.js:47 | includes holds iff the pattern occurs at some position |
| Text.JoinSplit | Server/src/controllers/postController.js:46-49 | joining the split pieces on the separator gives back the input |
| Text.SplitPieces | Server/src/middleware/auth.js:12 | no piece contains the separator; there is one piece more than separators |
| Text.SplitHead | Server/src/middleware/auth.js:12 | the first piece is the text before the first separator, and the rest is the split of what follows |
| Text.ReplaceFirstSpec | Client/src/components/jobs/JobCard.jsx:46 | replace with a one-character pattern changes only the first occurrence |
| Text.CommaListSpec | Server/src/controllers/userController.js:74 | a non-empty comma list has one trimmed, comma-free entry per field |
| Text.TrimAllCommaList | Server/src/controllers/authController.js:36 | the trimmed comma list passes the trimming array setter unchanged |
| Common.RemoveAll | Server/src/controllers/postController.js:297-299 | filtering out x removes every x and keeps everything else |
| Helpers.TruncateText | Client/src/utils/helpers.js:10-13 | a text that fits is unchanged; else the first maxLength characters and '...', length maxLength+3; the default maxLength is 100 |
| Helpers.TruncateBounds | Client/src/utils/helpers.js:10-13 | the result is at most maxLength+3 long, starts with what fits of the text, and truncating again with room for the ellipsis leaves it alone |
| Helpers.Firsts | Client/src/utils/helpers.js:18-19 | only first characters of non-empty words appear |
| Helpers.FirstsSkipsEmpty | Client/src/utils/helpers.js:18-19 | an empty word contributes no initial |
| Helpers.FirstsOfWord | Client/src/utils/helpers.js:18-19 | a non-empty word contributes its first character ahead of the rest |
| Helpers.FirstsAfterSpaces | Client/src/utils/helpers.js:17-19 | spaces ahead of a text add no initials |
| Helpers.GetInitials | Client/src/utils/helpers.js:15-22 | at most two characters, never a space |
| Helpers.InitialsSkipLeadingSpace | Client/src/utils/helpers.js:15-22 | a leading space contributes nothing |
| Helpers.InitialsOfOneWord | Client/src/utils/helpers.js:15-22 | one word gives its upper-cased first letter |
| Helpers.InitialsOfTwoWords | Client/src/utils/helpers.js:15-22 | two words give the two upper-cased first letters in order |
| Helpers.InitialsOfSpacedWords | Client/src/utils/helpers.js:15-22 | two words separated by any positive number of spaces give the two upper-cased first letters |
| MessageView.StatusIconOf | Client/src/components/chat/Message.jsx:5-14 | no icon for others' messages; double check when readBy has more than one entry; single check for exactly one; none when readBy is missing or empty |
| MessageView.FreshMessageSingleCheck | Client/src/components/chat/Message.jsx:10-11 | a message the relay has just stored shows its sender one check |
| MessageView.ReadByAnotherDoubleCheck | Client/src/components/chat/Message.jsx:8-11 | a receipt by a new reader turns one check into two, and the icon never moves backwards |
| ChatSidebar.Keeps | Client/src/components/chat/ChatSidebar.jsx:7-14 | the filter callback; a predicate without a contract, whose meaning `FilterChats` states |
| ChatSidebar.FilterChats | Client/src/components/chat/ChatSidebar.jsx:7-14 | a chat is kept iff it matches: a group by lower(groupName) containing lower(term), a direct chat by its first participant's username |
| ChatSidebar.FilterKeepsOrder | Client/src/components/chat/ChatSidebar.jsx:7-14 | the filtered list is an order-preserving subsequence |
| ChatSidebar.FilterIdempotent | Client/src/components/chat/ChatSidebar.jsx:7-14 | filtering twice is filtering once |
| ChatSidebar.EmptyTermKeeps | Client/src/components/chat/ChatSidebar.jsx:8-13 | with an empty term every group and every direct chat with a first participant is kept |
| ChatSidebar.ChatName | Client/src/components/chat/ChatSidebar.jsx:16-20 | the group name for groups; else the first participant's username, or 'Unknown User' |
| ChatSidebar.ChatNameNeverBlank | Client/src/components/chat/ChatSidebar.jsx:16-20 | a chat that passes the server's group-name validator is never shown without a name |
| ChatSidebar.LastMessageText | Client/src/components/chat/ChatSidebar.jsx:22-24 | the last message's content, or 'No messages yet'; never empty |
| MessagesPage.Page.constructor | Client/src/pages/Messages.jsx:11-14 | the input starts empty and nothing has been emitted |
| MessagesPage.Page.OnNewMessage | Client/src/pages/Messages.jsx:23-30 | an incoming message is appended iff it belongs to the open chat; nothing else changes |
| MessagesPage.Page.HandleSendMessage | Client/src/pages/Messages.jsx:71-83 | nothing happens for blank input, no open chat, or no socket; otherwise one send_message with the trimmed text and 'text' is emitted and the input is cleared |
| MessagesPage.SentMessageAccepted | Client/src/pages/Messages.jsx:75-81 | what the page sends always passes the relay's content and type checks |
| MessagesPage.OtherUser | Client/src/pages/Messages.jsx:85-88 | none for groups; else a participant who is not the viewer, and none only when every participant is the viewer |
| MessagesPage.FirstOther | Client/src/pages/Messages.jsx:87 | a found participant is one of the participants and not the viewer; none is found only when every participant is the viewer |
| MessagesPage.FirstOtherIsFirst | Client/src/pages/Messages.jsx:87 | the participant found is the first one who is not the viewer |
| MessagesPage.ChatName | Client/src/pages/Messages.jsx:90-94 | the group name, else the other user's username, else 'Unknown User' |
| MessagesPage.ChatAvatar | Client/src/pages/Messages.jsx:96-100 | the group image for groups, else the other user's avatar, else the default image; never empty |
| MessagesPage.DirectChatShowsOther | Client/src/pages/Messages.jsx:85-100 | in a direct chat between the viewer and someone else, in either stored order, the page shows the other person |
| CreateJobForm.InitialForm | Client/src/components/jobs/CreateJob.jsx:6-16 | on-site, full-time, USD, one empty entry in each list |
| CreateJobForm.HandleChange | Client/src/components/jobs/CreateJob.jsx:19-25 | a checkbox stores `checked`, any other input its value, touching only the named field |
| CreateJobForm.HandleSalaryChange | Client/src/components/jobs/CreateJob.jsx:27-35 | only the named salary input changes |
| CreateJobForm.HandleArrayChange | Client/src/components/jobs/CreateJob.jsx:37-42 | only entry i of the list changes; its length, the other list and the other fields stay |
| CreateJobForm.AddArrayItem | Client/src/components/jobs/CreateJob.jsx:44-49 | '' is appended to that list only |
| CreateJobForm.RemoveArrayItem | Client/src/components/jobs/CreateJob.jsx:51-56 | exactly entry i is deleted, the rest kept in order |
| CreateJobForm.AddThenRemove | Client/src/components/jobs/CreateJob.jsx:44-56 | removing the entry just added restores the form |
| CreateJobForm.ListsStayNonEmpty | Client/src/components/jobs/CreateJob.jsx:259-299 | since remove is offered only while a list has more than one entry, no sequence of on-screen actions empties a list |
| CreateJobForm.KeepNonBlank | Client/src/components/jobs/CreateJob.jsx:65-66 | exactly the entries that are non-blank after trimming are kept, untrimmed |
| CreateJobForm.KeepNonBlankOrder | Client/src/components/jobs/CreateJob.jsx:65-66 | the kept entries are in their original order |
| CreateJobForm.SubmitData | Client/src/components/jobs/CreateJob.jsx:63-72 | the lists lose blank entries; a salary bound is undefined when empty and parsed otherwise; the currency and the other fields are unchanged |
| CreateJobForm.SubmitInitial | Client/src/components/jobs/CreateJob.jsx:6-72 | the untouched form submits empty lists and no salary bounds |
| CreatePostForm.InitialForm | Client/src/components/posts/CreatePost.jsx:10-15 | the initial form has no snippets |
| CreatePostForm.AddCodeSnippet | Client/src/components/posts/CreatePost.jsx:56-61 | appends {javascript, '', ''} and keeps the existing snippets |
| CreatePostForm.UpdateCodeSnippet | Client/src/components/posts/CreatePost.jsx:63-70 | only the named field of snippet i changes |
| CreatePostForm.RemoveCodeSnippet | Client/src/components/posts/CreatePost.jsx:72-77 | exactly snippet i is deleted, the rest kept in order |
| CreatePostForm.AddThenRemove | Client/src/components/posts/CreatePost.jsx:56-77 | removing the snippet just added restores the form |
| CreatePostForm.EmptyCodeRejected | Client/src/components/posts/CreatePost.jsx:59 | a snippet left as added (empty code) fails the server's snippet validator, so the post is rejected |
| JobCard.FormatSalary | Client/src/components/jobs/JobCard.jsx:5-11 | 'Salary not specified' with neither bound (0 counts as missing); "$min - $max" with both; "From $min" or "Up to $max" with one |
| JobCard.FormatSalaryShape | Client/src/components/jobs/JobCard.jsx:5-11 | for any number format, the line's opening tells which bounds are set |
| JobCard.NoSalaryNotSpecified | Client/src/components/jobs/JobCard.jsx:6 | a job stored without a salary shows 'Salary not specified' |
| JobCard.VisibleSkills | Client/src/components/jobs/JobCard.jsx:57 | the first min(4, n) skills |
| JobCard.MoreCount | Client/src/components/jobs/JobCard.jsx:65-69 | the '+N more' badge appears iff there are more than 4 skills |
| JobCard.SkillsAccounted | Client/src/components/jobs/JobCard.jsx:57-70 | shown badges plus N count every skill exactly once |
| JobCard.TypeLabel | Client/src/components/jobs/JobCard.jsx:46 | the label has as many characters as the type's name (one character is replaced, none removed) |
| JobCard.TypeLabelFullTime | Client/src/components/jobs/JobCard.jsx:46 | 'full-time' is shown as 'full time' |
| JobCard.TypeLabelPartTime | Client/src/components/jobs/JobCard.jsx:46 | 'part-time' is shown as 'part time' |
| JobCard.TypeLabelOneWord | Client/src/components/jobs/JobCard.jsx:46 | 'contract' and 'internship' are shown unchanged |

## Left out

- Mongo query construction is left out: regex and `$text` search, `populate`, `sort`, `skip`/`limit` and `countDocuments`. Lookups are map reads; `save` and `create` are the commit of an already-validated document.
- These endpoints are left out because their logic is a query: `getUserChats`, `getPosts`, `getJobs` (except its `remote` condition), `getJob`, `getMyJobs`, `getMe`, `searchUsers`, `getUsers` and the `postCount` of a profile.
- Timestamps, `createdAt`/`appliedAt` defaults, `Date` parsing of `expiryDate`, and date formatting (`formatDate`, `toLocaleTimeString`) are left out.
- Ids are strings compared by equality. This assumes ObjectId-versus-string comparisons behave as id equality. A malformed id (a `CastError`, for example for 'temp-user') is not modelled.
- Fresh ids and message ids are parameters or a counter. Uniqueness of ObjectIds is a precondition.
- Concurrency is left out: each handler and each request runs to completion before the next. Interleaved `await`s are not modelled.
- Version conflicts between concurrent saves are not modelled either.
- Socket.IO transport, delivery and acknowledgements are out; the outbox records what was emitted and to whom.
- The `if (socket.userId)` checks after the handshake are not modelled: the handshake always sets a non-empty id, so those branches are dead.
- The `limit` query parameter arriving as a string is not modelled (`startIndex + limit` concatenates in `hasMore`); page and limit are naturals.
- Negative or fractional page and limit values are not modelled.
- Case mapping is ASCII only.
- `trim` white space is the ASCII controls plus NBSP, BOM, and the line and paragraph separators. The other Unicode space separators are left out.
- Lengths count characters, while `maxlength` counts UTF-16 units; these differ only outside the Basic Multilingual Plane.
- Query setters are assumed to apply to `findOne` filters: the e-mail is lower-cased and the username trimmed before lookup.
- A duplicate-key error from the unique indexes is modelled as a 500 in `GithubAuth`, and is ruled out by the `Taken` check in `Register`.
- PostController.ApplyPatch: covers only the editable fields. A PUT body naming `author`, `likes`, `comments`, `readTime` or `viewCount` would overwrite them too (`findByIdAndUpdate` takes the whole body); that is not modelled.
- ChatController.GetOrCreateDirectChat: a body without `userId` is not modelled; its outcome depends on how Mongoose casts `undefined` inside `$all` and in the new participants array.
- ChatController.AddParticipants: a `participants` string, which the spread would split into characters, is not modelled; a missing list is the 500 branch.
- JobController.CreateJob: salary bounds are integers. Fractional numbers, which `JSON.parse` can yield and the `Number` schema type stores, are not modelled; neither are they in `JobCard` or `CreateJobForm`, whose bounds come from `parseInt`.
- AuthController.Register / AuthController.Login: a body without `email` (or, for `Register`, without `username`) is not modelled. The value reaches `findOne` as `undefined`, and Mongoose drops such a filter key, so `login` would compare the password with an arbitrary stored user and `register`'s `$or` would match on the other key alone; the model takes both as strings.
- UserController.ProfileOf: `createdAt`, `updatedAt` and `postCount` are not part of the profile (timestamps and the post count query are left out above).
- The pre-save password hash is the `hashed` parameter of `Register`.
- `JSON.parse`, `bcrypt`, `jwt`, the GitHub HTTP calls, `parseInt` and `toLocaleString` are parameters; their own behaviour is not modelled.
- The client is modelled only in its state updates, selectors and emitted events.
- React rendering, effects and `fetch`/`api` calls are left out.
- The browser's `localStorage` and socket lifecycle (`SocketContext`, `AuthContext`) are left out.
- `CreateJobForm.SubmitData`: a `parseInt` result of NaN is modelled as an absent bound, since JSON turns it into `null`.
- `CreateJobForm.HandleChange`: the form has exactly one checkbox (`remote`), so a checkbox event always targets that field.
- `ChatSidebar.FilterChats` requires every group chat to carry a name, which the server's chat validator guarantees; `groupName.toLowerCase()` would throw otherwise.
- The shape mismatch between what the client posts (JSON arrays) and what `createJob` expects (comma-separated strings) is not modelled.
- The pure rendering components, route files and `Client/src/pages/Jobs.jsx` (whose `formatSalary` duplicates the job card's) are not part of this model.

## Findings

| source | as written | input that shows it | evidently intended | confidence | as-written member | corrected member |
|---|---|---|---|---|---|---|
| Server/src/controllers/chatController.js:181 | `[...new Set([...chat.participants, ...participants])]`: the stored participants are ObjectId objects, which a `Set` never finds equal to the new string ids, so a re-added member is stored twice | participants [a, b], request adds [b]: stored list [a, b, b] | the duplicate-free union, existing members first, then new ids in first-occurrence order: [a, b] | not executed | ChatController.AsWrittenUnionDuplicates | ChatController.UnionParticipantsSpec |
