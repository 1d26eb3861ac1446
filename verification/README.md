# Presence registry and signalling relay of a video-calling server

This project models, in Dafny, the core of the Node.js server of a small
video-calling application (`server.js`): the in-memory user registry that the
HTTP endpoints `POST /api/register` and `GET /api/users` read and extend, and
the Socket.IO handlers that log a socket in as a user, relay call signalling
(`call-user`, `answer-call`, `ice-candidate`, `hang-up`), chat messages and
file notifications, and clean up when a socket disconnects.

The model is functional:

- `options.dfy` — `Option`, standing for JavaScript's `undefined`/`null`.
- `registry.dfy` (module `Registry`) — the `users` Map as the sequence of its
  records in insertion order (the order `users.values()` yields), `has`/`get`/
  `find` as `Has`/`Lookup`, `Map.set` as `Put` (replace in place, or append a
  new key), the register endpoint and the users list, and the registry
  invariants: unique non-empty names, and `online` exactly when a `socketId` is
  stored.
- `relay.dfy` (module `Relay`) — `State` is the registry plus the
  `username` each socket was given at login; `Step(state, socket, event, now)`
  returns the next state and an outbox of `Delivery` values, each addressed to
  one socket id or to every socket except the sender.
- `traces.dfy` (module `Traces`) — runs of arbitrary interleavings of HTTP
  requests and socket events from the empty registry, and the properties that
  hold along every run.

`uuidv4()` and `Date.now()` are inputs (`freshId`, `now`); payloads the server
relays without looking at them (SDP offers and answers, ICE candidates, chat
text, file info, the caller's self-reported name) are opaque strings.

## Behaviour as written

The model follows the code, including the behaviour that is questionable:
messages lost without notice, and presence that disagrees with the sockets
actually connected:

- An event routed by name to a user who is unknown or offline is dropped
  silently; there is no negative acknowledgement and no per-call session state
  (no ringing/active/ended tracking), because the code keeps none.
- A second login for a user overwrites the stored `socketId`; the earlier
  socket stays bound to the user. When that earlier socket closes, the user is
  marked offline and `user-offline` is broadcast although the newer socket is
  still connected (`Relay.StaleDisconnectClearsNewerLogin`). So "online exactly
  when some socket is bound to the user" does not hold as written.
- Logging one socket in under a second name leaves the first user's record
  online on that socket after it closes, since closing the socket only clears
  the second name (`Relay.ReloginOrphansFirstUser`). The record stays so until
  a socket still bound to that user closes: one that logged in as that user
  before, or one that logs in as that user later.
- `answer-call`, `ice-candidate` and `hang-up` use `socket.to(id)`, which never
  delivers to the sender itself, so a socket forwarding to its own id reaches
  nobody; `call-user` and the chat events use `io.to(id)`, which has no such
  exclusion.
- The caller name carried by `incoming-call` is whatever the caller sent; the
  `from` of a message or file is the sender's login name, absent when the
  socket never logged in.
- Socket.IO fires `disconnect` once per socket and delivers nothing on a
  closed socket. The handler does not clear `socket.username`; the model drops
  the closed socket's binding, so a second close, an event the transport never
  produces, changes nothing and broadcasts nothing
  (`Relay.DisconnectIsIdempotent`).
- The register reply is `{success, userId, username}` with status 200, or an
  error with status 400 (missing or empty name) or 409 (name taken).

## Model

| member | source | states |
|---|---|---|
| Registry.IndexFrom | server.js:120 | scanning the records from a position finds the first record of that name at or after it, or proves none is there |
| Registry.IndexOf | server.js:120 | a scan by name returns the first position holding that name, and returns nothing exactly when the name is not registered |
| Registry.Lookup | server.js:94-95 | a lookup by name finds a record exactly when the name is registered, and the record found is the registry's first record of that name |
| Registry.LookupFindsRecord | server.js:120 | with unique names, searching for the name of any record finds that very record |
| Registry.Put | server.js:98 | after `set`, the stored record is what a lookup of its name returns, every other name looks up as before, an existing key keeps its position and a new key is appended |
| Registry.PutFound | server.js:95-98 | writing back the record just read leaves the registry unchanged |
| Registry.PutPut | server.js:54 | a second `set` of the same key overrides the first entirely, whether the first replaced an existing record or appended a new one |
| Registry.PutKeepsIdentity | server.js:95-98 | updating a found record in place keeps every record's id, username and position, and touches no record of another name |
| Registry.PutPreservesValid | server.js:98 | storing a consistent record with a non-empty name keeps names unique and presence consistent |
| Registry.Register | server.js:42-62 | a missing or empty name fails with 400 and a taken name with 409, both leaving the registry unchanged; otherwise exactly one offline record without a socket id is appended under the fresh id, and every other name looks up as before |
| Registry.RegisterPreservesValid | server.js:53-59 | registration keeps names unique and non-empty and keeps `online` exactly when a socket id is stored |
| Registry.RegisterTwiceFails | server.js:49-51 | once a name has been registered, registering it again fails with the duplicate error and changes nothing |
| Registry.ListUsers | server.js:64-70 | the list has one `{username, online}` entry per record, in registry order, and nothing else of the record; what the list means for a name is `Registry.ListUsersReflectsLookup` |
| Registry.ListUsersReflectsLookup | server.js:64-70 | with unique names, `{name, online}` is in the users list exactly when a lookup of the name finds a record with that online flag, and a name is listed exactly when it is registered |
| Relay.HandleLogin | server.js:93-115 | an unknown name changes nothing and emits nothing; a registered name is set online with the caller's socket id, no other name's record changes, the socket is bound to the name, `user-online` goes to all other sockets and the refreshed users list to the caller |
| Relay.LoginListsCallerOnline | server.js:107-111 | after a registered user logs in, the list sent back to the caller has one entry per registered user and includes the caller as online |
| Relay.Route | server.js:118-129 | stated over the records: a routed event leaves the state alone, is emitted at most once, is emitted exactly when the first record of the target's name is online with a socket id, and then goes unchanged to that record's socket id only |
| Relay.Forward | server.js:131-144 | a forwarded event goes to the socket id supplied in the event, leaves the state alone, and is dropped exactly when that id is the sender's own |
| Relay.HandleDisconnect | server.js:176-190 | the socket's binding is removed; an unbound socket changes nothing and emits nothing; a bound socket whose user exists takes that user offline without socket id, changes no other record and broadcasts `user-offline` to the other sockets |
| Relay.Step | server.js:89-191 | only login and disconnect change the state, no handler adds or removes a record, at most two events are emitted, broadcasts always exclude the sender, and no other socket's binding changes |
| Relay.StepPreservesValid | server.js:93-190 | every handler keeps names unique and non-empty, keeps `online` exactly when a socket id is stored, and binds sockets only to registered names |
| Relay.StepChangesOnlySubject | server.js:93-190 | a handler changes at most the record of the user it logs in or out, and keeps that record's id, username and position |
| Relay.RouteReachesOnlyTarget | server.js:120-128 | stated over the records themselves: an event routed by name is emitted exactly when some record of that name is online, and only to that record's socket id |
| Relay.RoutedReachesOnlyTarget | server.js:118-173 | `call-user`, `send-message` and `send-file` never change the state and emit at most one event, exactly when the target is online, to the target's socket only; `incoming-call` carries the caller's socket id, `receive-message` the type `'text'` when none is given, and both chat events the sender's login name and the clock reading |
| Relay.ForwardIgnoresState | server.js:131-144 | `answer-call`, `ice-candidate` and `hang-up` neither read nor change the registry or the bindings, and their outbox is the same from every state: `call-answered` with the answer goes to `callerId`, `ice-candidate` with the candidate and `call-ended` go to `targetId`, and nothing is sent when that id is the sender's own |
| Relay.BoundDisconnectGoesOffline | server.js:179-188 | in a reachable state, closing a socket that logged in always finds its user, marks it offline without socket id and broadcasts `user-offline` for it |
| Relay.DisconnectIsIdempotent | server.js:176-190 | in the model, which drops a closed socket's binding, a second close of the same socket changes nothing and broadcasts nothing |
| Relay.LoginThenDisconnect | server.js:93-190 | logging in as an offline user and then closing that socket restores the registry exactly, and only that socket's binding is gone |
| Relay.StaleDisconnectClearsNewerLogin | server.js:179-184 | after logins on sockets `a` then `b`, closing `a` marks the user offline with no socket id while `b` is still bound to the user |
| Relay.LoginTwiceOnOneSocket | server.js:96-100 | two logins on one socket under different names leave both records pointing at the socket, and the socket bound to the second name only |
| Relay.ReloginOrphansFirstUser | server.js:93-190 | after a socket logs in under two names and closes, the first user stays online on the closed socket and only the second goes offline |
| Relay.CallReachesLatestLogin | server.js:97-127 | after a registered user logs in on a socket, a call to that user from any socket reaches exactly that socket, carrying the caller's socket id |
| Traces.Apply | server.js:53-59 | one request or event appends at most one name to the registry, and only a registration of a new non-empty name does |
| Traces.RunPreservesValid | server.js:38-190 | along any run, names stay unique and non-empty, `online` holds exactly when a socket id is stored, and bound sockets name registered users |
| Traces.RunNamesAreRegistrations | server.js:53-59 | records are never removed or reordered: the names at the end of a run are those at its start followed by the names its successful registrations added |
| Traces.RegistrationsAreDistinct | server.js:49-59 | from a fresh start, the successful registrations of any run have pairwise distinct names and are exactly the registry's records |

## Left out

- Express, CORS, JSON-body and static-file middleware, the catch-all route serving the client bundle, and `server.listen` (server.js:9-23, 193-200): HTTP plumbing with no state of the core.
- The multer upload endpoint and the `/uploads` static route (server.js:25-35, 72-86): disk I/O through a library whose code is not part of this model; the file info it returns is relayed as an opaque payload.
- The unused `rooms` map (server.js:39) and all `console.log` output.
- `uuidv4()` and `Date.now()`: taken as inputs rather than modelling randomness or a clock.
- The Socket.IO transport: an outbox entry names a socket id or "every socket but the sender"; whether a socket with that id is still connected, and the set of connected sockets a broadcast reaches, are transport state the model does not track. Events are processed one at a time, as Node's event loop runs the handlers.
- `socket.userId` (server.js:101): written at login and never read.
- Events arriving on a socket after it closed: Socket.IO delivers none, and socket ids are not reused.
- Payloads that are not the expected shape (an event with no data object, whose destructuring throws inside the handler; a non-string login name or target name): payload fields are modelled as strings.
- Registry.Register: the `username` body field is modelled as absent or a string; other JSON values (numbers, booleans, objects), whose truthiness and Map-key identity differ, are not modelled.
- Relay.DisconnectIsIdempotent: a second close of a socket is an event on a closed socket, which Socket.IO never delivers; the lemma describes the model's bookkeeping of bindings, not the handler at server.js:176-190, which does not clear `socket.username` and would broadcast `user-offline` again if it ran twice.
- Relay.Route: a record that is online without a socket id cannot arise (Relay.StepPreservesValid); for such a state the model drops the event, whereas the code would emit to the room `null`.
- A per-call session state machine and negative acknowledgements for dropped events: the code implements neither, so the model does not invent them.
- client/src/App.js: React view state backed by `localStorage`, outside the relay.
