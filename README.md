# Messenger server request engine, in Dafny

This project models the request engine of the messenger's `Server` class
(`server/server.py`). Clients connect, register, log in, keep a contact
list and send messages to each other. A message goes straight to the
recipient's socket when the recipient is logged in. Otherwise it is queued
in the recipient's row and handed over, and cleared, by `get_messages`.

The model keeps the server's state in a class `Messenger.Server`:

- `clients`: the sockets whose session loop is running (`self.clients`);
- `logins`: the presence table `self.logins`, a dict from socket to login.
  It is modelled as an association list in insertion order
  (`Presence.Table`), because the message router sends to the first socket
  in the dict's iteration order;
- `users`: the `users` table of the database, as a map from login to a row
  `{password, contacts, messages}` (`Store.UserRecord`);
- `outbox`: what has been pushed to each socket. It stands in for the
  unsolicited `socket.send` of a message to a logged-in recipient.

Sockets are opaque ids. Requests arrive already decoded (`Protocol.Request`),
with `None` for a field the client left out. Replies are `Protocol.Response`
values: the status (200, 400 or 403), an error tag and the action's extra field.

The class invariant `Valid()` holds in every reachable state and every
handler preserves it:

- every socket in `logins` has a running session;
- every login in `logins` has a row;
- every contact list names only registered users and has no duplicates.

The eight handlers check their guards in the source's order and build their
reply from a 200 default, as the source does. A failing guard leaves the
store and the presence table unchanged. The dispatcher turns an undecodable
request, an unknown action or a missing field into `Fatal`, and the session
loop `Serve` then tears the connection down. What one request does is the
predicate `Messenger.Turn` on `Messenger.Snapshot`s of the presence table,
store and outbox: one small predicate per action, each the handler's guard
cascade and state change. `Serve` returns the states its session passed
through, and every answered frame and the frame that ends the session are
turns between consecutive states.

Plain queries without a contract of their own are `CheckExistence`,
`GetPassword`, `InContacts`, `GetClientContacts`, `IsOnline` and `Pushed`.
The handlers' contracts state what they return.

Behaviour of the code worth noting:

- A contact list is an ordered list. It is not a set: appending is guarded
  by a membership test, and deleting removes the first occurrence.
- A second `authorize` on a socket overwrites its binding. Several sockets
  may be logged in as one login, and a push goes only to the first of them.
- Closing a connection is not idempotent in the code: `clients.remove` would
  raise on a second close. `Teardown` therefore requires the socket to be
  in `clients`.
- In a valid state, the 400 branches of `get_contacts` and `get_messages`
  are unreachable. An authorized login always has a row. `GetContacts`
  states this.

## Model

| member | source | states |
|---|---|---|
| Lists.IndexOf | server/server.py:245 | `list.index`: the position of the first occurrence, or the length when absent; no earlier element equals the key |
| Lists.RemoveFirst | server/server.py:245 | deleting at the first occurrence (also `list.remove`, line 60) removes exactly one copy: the multiset loses one `x`, the length drops by one, and every other element stays |
| Lists.RemoveFirstKeepsOrder | server/server.py:245 | only the first copy goes: the elements before it keep their positions and those after it move up by one |
| Lists.DropAt | server/server.py:245 | cutting out one position removes one copy of that element from the multiset, keeps every other value, and shifts the later elements up by one |
| Lists.AppendKeepsNoDup | server/server.py:124-128 | appending a contact that is not yet in the list keeps the list duplicate-free |
| Lists.RemoveFirstKeepsNoDup | server/server.py:142-146 | deleting a contact from a duplicate-free list removes it completely and keeps the list duplicate-free |
| Lists.AppendThenRemoveFirst | server/server.py:231-249 | appending an absent contact and then deleting it gives back the original list |
| Presence.Lookup | server/server.py:211-213 | `None` exactly when no entry has the socket; otherwise the returned login is bound to it, and with distinct keys it is the only one |
| Presence.Bind | server/server.py:98 | `logins[s] = l`: a new key is appended at the end; the entry `(s, l)` is present, every entry of another socket survives, nothing else is added, keys stay distinct |
| Presence.BindKeepsOrder | server/server.py:98 | on an existing key the entry is rewritten in place: every entry keeps its position and only that key's login changes |
| Presence.ReplaceEntry | server/server.py:98 | giving one entry a new login keeps the keys and every other entry |
| Presence.AppendEntry | server/server.py:98 | appending an entry for a socket that is not yet a key keeps the keys distinct |
| Presence.Sockets | server/server.py:211 | `logins.keys()`: one key per entry, the i-th key is the socket of the i-th entry, and a socket is a key exactly when some entry has it |
| Presence.RemoveEntry | server/server.py:62 | deleting one entry keeps every entry of another socket and adds nothing |
| Presence.RemoveEntryUnique | server/server.py:62 | with distinct keys, deleting one entry keeps the keys distinct and leaves no entry for its socket |
| Presence.Unbind | server/server.py:61-64 | `del logins[s]` with a missing key ignored: no-op when `s` is absent; keeps the other sockets' entries; adds nothing; with distinct keys no entry for `s` remains |
| Presence.UnbindKeepsOrder | server/server.py:62 | on an existing key exactly that entry is cut out, and the remaining entries keep their order |
| Presence.BindLookup | server/server.py:98 | after `logins[s] = l` the lookup of `s` gives `l`, and the lookup of any other socket is unchanged |
| Presence.UnbindLookup | server/server.py:62 | after `del logins[s]` the lookup of `s` gives nothing, and the lookup of any other socket is unchanged |
| Presence.FirstSocket | server/server.py:176-181 | no socket exactly when the login is not among the dict's values; otherwise the socket of the first entry, in insertion order, that is bound to the login |
| Presence.FindSocket | server/server.py:178-181 | the `for ... break` loop over `logins.items()` finds the first socket, in insertion order, that is bound to the login |
| Presence.UnbindOnline | server/server.py:58-65 | after a teardown a login is online exactly when another socket is still bound to it |
| Store.RegisterKeepsWellFormed | server/server.py:203-207 | inserting a row with empty contact and message lists keeps the store well formed |
| Store.AppendContactKeepsWellFormed | server/server.py:231-239 | appending an existing non-contact keeps every contact list duplicate-free and made of registered users |
| Store.RemoveContactKeepsWellFormed | server/server.py:241-249 | deleting a contact keeps the store well formed and the contact is gone from the list |
| Store.SetMessagesKeepsWellFormed | server/server.py:256-274 | rewriting a pending queue leaves the contact lists, and so well-formedness, intact |
| Messenger.Server.constructor | server/server.py:10-16 | a server starts with no clients, an empty presence table and an empty outbox over a well-formed store |
| Messenger.Server.CheckAuthorization | server/server.py:209-213 | true exactly when the socket is a key of `logins` and is bound to the given login |
| Messenger.Server.Register | server/server.py:203-207 | inserts one row with the given password and empty contacts and messages, and changes nothing else |
| Messenger.Server.AddToContacts | server/server.py:231-239 | the login's contact list becomes the old list with the contact appended at the end; no other row changes |
| Messenger.Server.DelFromContacts | server/server.py:241-249 | the login's contact list loses the first occurrence of the contact; no other row changes |
| Messenger.Server.AddUnreadMessage | server/server.py:256-264 | the login's queue becomes the old queue with the message at the end; no other row changes |
| Messenger.Server.GetUnreadMessages | server/server.py:266-274 | returns the whole queue in insertion order and leaves it empty; no other row changes |
| Messenger.Server.CheckOnline | server/server.py:67-82 | 403 when not authorized, then 400 for an unknown target; otherwise 200, with `online` true exactly when some socket is bound to the target and false exactly when none is |
| Messenger.Server.Authorization | server/server.py:84-99 | 400 for an unknown login, 403 and no change for a wrong password; otherwise 200, the socket is bound to the login, and no other socket's binding changes |
| Messenger.Server.Registration | server/server.py:101-111 | 400 `LoginTaken` with the store unchanged for an existing login; otherwise 200 and exactly one new row with the password and empty lists |
| Messenger.Server.AddContact | server/server.py:113-129 | 403, then 400 unknown target, then 400 already a contact, each leaving the store unchanged; otherwise 200 and the target is appended to the caller's list |
| Messenger.Server.DelContact | server/server.py:131-147 | 403, then 400 unknown target, then 400 not a contact, each leaving the store unchanged; otherwise 200, the first occurrence is removed and the target is no longer a contact |
| Messenger.Server.GetContacts | server/server.py:149-162 | 403 when not authorized, 400 for a missing row, otherwise 200 with the caller's list; in a valid state never 400 |
| Messenger.Server.HandleMessage | server/server.py:164-185 | 403, then 400, with nothing changed; a missing body past both guards is fatal with nothing changed; an online recipient's first socket gets one push with the store unchanged; an offline recipient's queue gets exactly one copy at its end and nothing is pushed |
| Messenger.Server.GetMessages | server/server.py:187-201 | 403 or 400 with the store unchanged; otherwise 200 with the whole queue in insertion order, and the queue is left empty |
| Messenger.Server.Connect | server/server.py:35 | the socket is appended to `clients` |
| Messenger.Server.Teardown | server/server.py:58-65 | the socket leaves `clients` (first occurrence) and `logins`; other sockets' bindings are unchanged; a login stays online only through another socket |
| Messenger.Server.Dispatch | server/server.py:37-58 | the request is one `Turn` from the old to the new presence table, store and outbox: an undecodable request, an unknown action or a missing field is fatal and changes nothing; each known action gets exactly its handler's reply cascade (403, then the 400 cases in the handler's order, then 200, or fatal for a message without a body) and its state change; no other socket's binding changes |
| Messenger.Server.Session | server/server.py:36-57 | the `while True` loop: each answered frame is a `Turn` from one state of the trace to the next with that reply; when the loop stops early, the next frame is a fatal `Turn` that changes nothing; only routable frames are answered, and a session stops early only on an unroutable frame or a `send_message` without a body |
| Messenger.ChainExtend | server/server.py:36-57 | one more answered turn from the last state of a trace extends the chain of turns |
| Messenger.Server.Serve | server/server.py:31-65 | the whole session: every answered frame is a `Dispatch` turn between consecutive states of the trace, starting from the state on entry; the frame that ends the session early is a fatal turn; the final store and outbox are those after the last answered turn, and the presence table is that one with the socket deleted; `clients` is as before the session, the socket is unbound, other sockets' bindings are unchanged, and no frame after the first unroutable one is answered |
| Scenarios.RegisterTwice | server/server.py:101-111 | registering a login twice: the second call returns `LoginTaken` and the first row is kept |
| Scenarios.AddThenDelete | server/server.py:113-147 | `add_contact` followed by `del_contact` of the same user both succeed and restore the store |
| Scenarios.DeleteBeforeAdd | server/server.py:131-147 | deleting a user who was never added returns 400 `NotInContacts` and changes nothing |
| Scenarios.DrainTwice | server/server.py:187-201 | two `get_messages` in a row: the first returns the queue, the second an empty list |
| Scenarios.SendToOffline | server/server.py:164-185 | a message to an offline user is queued once and nothing is pushed |
| Scenarios.OfflineDelivery | server/server.py:164-201 | `a` sends to offline `b`; `b` logs in and gets `[{from: a, message}]` exactly once, then an empty list |
| Scenarios.OnlineDelivery | server/server.py:164-185 | `a` sends to online `b`: `b`'s socket receives exactly one push from `a` and `b`'s queue stays empty |

## Left out

- `start`: binding, listening, accepting and the per-connection thread (lines 18-29) are transport plumbing. Sessions are modelled one request at a time, and `Serve` runs one whole session.
- Concurrency between sessions is not modelled. The source shares `logins` and the database between threads without a lock. A push to a socket that closes meanwhile raises in the sender's thread, which tears down the sender's session. The message is lost and does not fall back to the queue.
- Socket I/O: `recv(1024)` and the reply `send` (lines 38, 57) are not modelled. The requests are a sequence of decoded frames. An I/O failure or the end of the stream counts as an undecodable frame. A push is an append to `outbox`.
- JSON encoding and decoding of requests, replies and the stored lists, and the SQL text and commits (lines 203-274). The store is a map, and each helper is one map update.
- Error texts: only the status code and an error tag are kept. The `action: 'response'` field is a constant and is not stored.
- The `host`, `port` and listening `socket` fields are not part of this model.
- Non-string JSON values for logins, passwords or message bodies, and the Python exceptions they could raise, are not modelled. Logins and passwords are strings, and a password check is plain equality.
