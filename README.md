# ChatterBox server core in Dafny

ChatterBox's server (`ChatterBox/server/index.js`) keeps all its state in memory:

- a `users` registry keyed by email, iterated in insertion order;
- `userSockets`, the current Socket.IO connection of each online email;
- `messages`, the message logs keyed by conversation;
- `groups`, keyed by a group id taken from the millisecond clock.

REST routes and socket handlers read and update these registries and emit events to sockets.

This project models that core as one class, `Server.ChatServer`. Its fields are the registries, plus two more:

- `userOrder`, the Map's insertion order;
- `socketEmail`, the `userEmail` attribute each socket carries.

Each route or handler is a method. It takes the inbound fields, updates the fields in place and returns the outbound events as values. An event is addressed to one socket, to every socket, or back to the socket that sent the inbound event. Clock readings are parameters:

- `clock` is the number `Date.now()` would return;
- `now` is the ISO string `new Date().toISOString()` would return.

The modules:

- `Text` covers two pieces of JavaScript string semantics: the default `sort` order on strings, and `toString` on the millisecond clock, which names messages and groups.
- `Model` holds the records (users, groups, messages, events) and the conversation key of a direct chat: the two emails, sorted and joined with `_`.
- `Routing` covers group fan-out: every member other than the sender that has a binding is reached, in member order.
- `Membership` covers what creating a group does to the user registry.
- `Server` holds the class, its invariant `Valid()` and the lemmas that preserve it.
- `Scenarios` holds short runs of several handlers, with their outcomes stated as contracts.

`Valid()` ties the registries together:

- `userOrder` lists each user exactly once;
- a user is online exactly while it has a binding;
- every listed group exists, under an id made of decimal digits;
- every stored message sits in the log of its own conversation, and group messages stay `sent`.

Behaviours of the code worth knowing:

- `POST /api/register` refuses an email that is already known with a 400 and leaves the existing user as it was.
- `message_status_update` is emitted to the receiver's socket. The sender learns the status only from its echo.
- The only statuses ever written are `sent` and `delivered`. `message_read` forwards a confirmation and changes no state.
- `typing_start`, `typing_stop` and the three call events only relay to the bound socket. They keep no state: the `typingUsers` and `activeCalls` maps are declared and never used.
- The receiver's `receive_message` carries status `sent`. The event is serialised when it is emitted, and the status becomes `delivered` only afterwards. The sender's echo carries `delivered`.
- `disconnect` removes the binding by the socket's email, whichever socket that email is now bound to. A stale socket that closes after its user has reconnected elsewhere therefore unbinds the live connection and shows the user offline (`Scenarios.StaleDisconnect`).
- A socket that announced the empty email is falsy in JavaScript, so its disconnect does nothing.
- The direct key does not identify the pair. An underscore inside an email can make two different pairs share a log (`Model.DirectKeyAmbiguous`).
- A creator who also lists itself among the members is stored twice in `members`, and, if it is a known user, its `groups` lists the id twice (`Membership.CreatorListedTwice`).

## Model

| member | source | states |
|---|---|---|
| Text.LexLe | ChatterBox/server/index.js:271 | the string order `sort()` uses: a prefix of a string comes no later than it, and a string is at most one of its own prefixes only when the two are equal |
| Text.LexLeFirstDifference | ChatterBox/server/index.js:312 | past a common prefix, the first differing character decides the order |
| Text.LexLeTotal | ChatterBox/server/index.js:271 | any two strings are ordered one way or the other by the string comparison `sort` uses |
| Text.LexLeAntisymmetric | ChatterBox/server/index.js:271 | two strings each at most the other are equal |
| Text.SortPair | ChatterBox/server/index.js:271 | `[a, b].sort()` is a permutation of the pair whose first element is at most its second |
| Text.SortPairSymmetric | ChatterBox/server/index.js:312 | sorting `[a, b]` and `[b, a]` gives the same list |
| Text.Decimal | ChatterBox/server/index.js:101 | `Date.now().toString()` is a non-empty string of decimal digits with no leading zero |
| Text.DecimalRoundTrip | ChatterBox/server/index.js:241 | reading back the digits of a clock reading gives the reading |
| Text.DecimalInjective | ChatterBox/server/index.js:101 | two clock readings give the same message or group id exactly when they are equal |
| Model.Stamp | ChatterBox/server/index.js:240-252 | a new message has status `sent`, the given sender, receiver and group flag, and type `text` unless the client named one |
| Model.DirectKey | ChatterBox/server/index.js:271 | the room key is the two emails joined by `_`, the smaller one first, whichever of them is the sender |
| Model.ConversationKey | ChatterBox/server/index.js:255-313 | a group message addresses the log under the group id; a direct one addresses the pair's key, the same from either side and never a group id |
| Model.DirectKeySymmetric | ChatterBox/server/index.js:312 | both parties of a direct conversation write to and read from the same log |
| Model.DirectKeyIsNoGroupId | ChatterBox/server/index.js:255-274 | a direct key is never a group id, so direct and group logs never share a key |
| Model.DirectKeyAmbiguous | ChatterBox/server/index.js:271 | two different pairs of emails can have the same room key |
| Model.Summaries | ChatterBox/server/index.js:173-178 | the user list built from the registry in insertion order has one entry per user |
| Model.SummariesExact | ChatterBox/server/index.js:173-178 | the user list has one entry per registry entry, in insertion order, each carrying that user's name, email, presence and last-seen time |
| Routing.Recipients | ChatterBox/server/index.js:261-267 | the sockets a group event reaches, skipping the sender and unbound members, are never more than the member entries |
| Routing.Deliveries | ChatterBox/server/index.js:265 | one copy of the event to each reached socket, in order |
| Routing.FanOut | ChatterBox/server/index.js:261-268 | the member loop emits one copy of the event to each bound member other than the sender, in member order |
| Routing.RecipientsAppend | ChatterBox/server/index.js:261-268 | the sockets reached by a concatenated member list are those reached by each part, in order |
| Routing.RecipientsExactly | ChatterBox/server/index.js:186-193 | a socket is reached exactly when it is the binding of some member other than the sender |
| Routing.RecipientsBounded | ChatterBox/server/index.js:261-268 | fan-out reaches at most one socket per member entry, and nobody when the sender is the only member |
| Membership.WithGroupListed | ChatterBox/server/index.js:113-119 | listing a group creates no user and removes none |
| Membership.WithGroupListedStep | ChatterBox/server/index.js:114-118 | one loop turn appends the id to a known member's list and changes nothing else |
| Membership.ListedExactlyForMembers | ChatterBox/server/index.js:113-119 | afterwards a user lists the group exactly when it did before or is a member; non-members are untouched; nobody loses a group or changes otherwise |
| Membership.CreatorListedTwice | ChatterBox/server/index.js:106-119 | a creator named among the members appears twice in `members` and gets the id at least twice |
| Server.ChatServer.constructor | ChatterBox/server/index.js:58-63 | the server starts with empty registries, which satisfy the invariant |
| Server.ChatServer.History | ChatterBox/server/index.js:309-313 | a conversation's history is its stored log, or the empty list when none exists |
| Server.ChatServer.UserList | ChatterBox/server/index.js:124-133 | `GET /api/users` has one entry per user |
| Server.ChatServer.UserListComplete | ChatterBox/server/index.js:124-133 | the user list names every known user exactly once, with its summary, and shows a user online exactly when it has a binding |
| Server.ChatServer.OrderCoversUsers | ChatterBox/server/index.js:58 | the Map's insertion order names every user once and only users |
| Server.ChatServer.GroupsOf | ChatterBox/server/index.js:135-144 | `GET /api/groups/:email` is 404 exactly for an unknown email; otherwise it returns the stored groups the user lists, in the user's order |
| Server.ChatServer.LogsAreHomogeneous | ChatterBox/server/index.js:255-290 | the log under a group id holds only group messages, and every other log holds only direct ones |
| Server.ChatServer.Register | ChatterBox/server/index.js:83-96 | a new email is added offline with no groups at the end of the order (201); a known email is refused (400) and nothing changes; the invariant is kept |
| Server.ChatServer.CreateGroup | ChatterBox/server/index.js:99-122 | the group is stored under the clock reading with members `members ++ [creator]` and admins `[creator]`; each known member lists the id once per occurrence; nothing else changes; the invariant is kept |
| Server.ChatServer.ListGroup | ChatterBox/server/index.js:112-119 | the member loop leaves the registry equal to the listing function applied to the old one |
| Server.ChatServer.UserConnected | ChatterBox/server/index.js:150-180 | an unknown email is created online with no groups; a known user is marked online with a new last-seen time and keeps its name and groups; the email is bound to this socket, replacing any earlier binding; the user list is broadcast |
| Server.ChatServer.Typing | ChatterBox/server/index.js:182-222 | group typing goes to every bound member but the sender, an unknown group gets nothing, and direct typing goes to the bound receiver only |
| Server.ChatServer.MessageRead | ChatterBox/server/index.js:224-231 | a direct read confirmation reaches the original sender's socket exactly when it is bound; group reads emit nothing |
| Server.ChatServer.SendMessage | ChatterBox/server/index.js:233-305 | exactly one message is appended to the conversation's log; an unknown group id changes nothing and emits nothing; only the messages registry changes; the invariant is kept |
| Server.ChatServer.SendToGroup | ChatterBox/server/index.js:236-269 | a group message is stored as `sent`, sent to every bound member but the sender, and echoed once to the sender |
| Server.ChatServer.SendDirect | ChatterBox/server/index.js:270-304 | a direct message is stored as `delivered` exactly when the receiver is bound, in which case the receiver gets it (as `sent`) and then a status update; the echo carries the stored status |
| Server.ChatServer.GetMessages | ChatterBox/server/index.js:307-316 | replies with exactly the stored log of the conversation, or an empty list, and changes nothing |
| Server.ChatServer.CallUser | ChatterBox/server/index.js:319-329 | the offer reaches the callee's socket unchanged exactly when the callee is bound |
| Server.ChatServer.AnswerCall | ChatterBox/server/index.js:331-336 | the answer reaches the caller's socket unchanged exactly when the caller is bound |
| Server.ChatServer.EndCall | ChatterBox/server/index.js:338-343 | the hang-up reaches the other party exactly when it is bound |
| Server.ChatServer.Disconnect | ChatterBox/server/index.js:345-364 | a socket with no announced email, or an empty one, changes nothing; otherwise that user goes offline with a new last-seen time, its binding is removed and the user list is broadcast |
| Server.DirectoryAfterCreate | ChatterBox/server/index.js:113-119 | listing a new group keeps every user's email and presence, and every listed group exists |
| Scenarios.StaleDisconnect | ChatterBox/server/index.js:345-364 | the disconnect of a replaced socket shows its user offline and unbinds the live socket |
| Scenarios.OfflineMessageStaysSent | ChatterBox/server/index.js:270-316 | a message to a receiver who is not connected is stored as `sent`, is visible from the receiver's side, and stays `sent` when the receiver connects |
| Scenarios.GroupHello | ChatterBox/server/index.js:236-269 | in a three-member group, each other member's socket gets the message once, the sender gets one echo, and the stored status is `sent` |
| Scenarios.DirectToOnline | ChatterBox/server/index.js:292-303 | to a connected receiver: the message as `sent`, then a `delivered` update to the receiver, then the sender's echo as `delivered` |

## Left out

- Express setup, CORS, static files and the multer upload route (`index.js` lines 1-55 and 66-80): file-system and HTTP plumbing that does not touch the registries.
- The Socket.IO transport itself: the `connection` event, delivery and serialisation. Handlers return the events they would emit.
- Logging and `server.listen`: output only.
- `typingUsers` and `activeCalls`: declared, never read or written.
- The clocks: `Date.now()` and `new Date().toISOString()` are parameters. Ids are taken from the clock reading, so two messages or groups created in the same millisecond share an id, as in the source.
- Malformed payloads: missing or non-array fields, for example `members` not being an array. The model takes typed inputs. A field the client leaves out is `None`, except `type`, which defaults to `text`.
- Text.LexLe: characters are compared as Unicode scalar values, whereas JavaScript compares UTF-16 code units. The two orders differ only between characters above U+FFFF and characters in U+E000-U+FFFF.
- Socket ids: the source tests `if (socketId)`, while the model tests whether a binding exists. These differ only for an empty socket id, which Socket.IO never assigns.
- Object identity: the source shares one message object between the log and the sender's echo, and one user object between the registry and the loop. The model copies values and states the resulting contents.
- Model.Summaries: its own contract states only the length of the list. The entries are stated by `SummariesExact`, which keeps the per-entry facts out of every handler that broadcasts the list.
- Routing.Recipients: its own contract states only the bound on the number of sockets reached. Which sockets are reached, and in what order, is stated by `RecipientsExactly` and `RecipientsAppend`.
- Server.ChatServer.UserList: its own contract states only the length of the list. The full contents are stated by `UserListComplete` and `SummariesExact`, so callers do not carry the per-entry facts.
- The client application: not part of this model.
