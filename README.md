# Game socket server: session model

A model of the session logic of a small socket.io game server (`server.js`).
The server keeps three pieces of process-wide state:

- `users`: a dictionary from socket id to the name a connection sent with `login`;
- `currentQuestion`: the last trivia question started;
- `gameState`: the memory-match game last dealt.

Each `socket.on` handler updates that state and broadcasts events to every client.
In the model, the state is the class `Session.Session`. Each handler is a method of that class. It takes the connection id (where the handler uses it) and the payload, and returns the broadcast events in order instead of calling `io.emit`.

Modules:

- `JsValue` (js_value.dfy): the values a payload can be, and three JavaScript rules the handlers depend on. Truthiness is the test behind `if (v)` and `v || d`. Property reads throw on `undefined` and `null`. String conversion in a template literal throws for some decoded objects. The server stores and echoes payloads without checking their type, so names and payloads are not restricted to strings. An empty string is one of the falsy values.
- `Registry` (registry.dfy): the `users` dictionary. A JavaScript object also keeps its keys in insertion order, and `Object.values(users)` (the broadcast roster) follows that order. So the model keeps that property order (`order`) beside the map. This module also defines the `users[id] || "Anonymous"` fallback.
- `Memory` (memory.dfy): the eight-image catalog and the deck that `startGameMemory` deals. The random shuffle is a parameter: any rearrangement of the doubled catalog.
- `Session` (session.dfy): the session state, the outbound events and the eight handlers, with log lines that do not throw.
- `AsWritten` (as_written.dfy): the handlers whose log lines can throw, run as the source has them (see Findings).

`server.js` has no bingo game, no logo quiz, no scoring or leaderboard, no stored active mode and no resynchronisation of a client on login. The model has none of them either. Three consequences of following the code as written:

- The roster is a list in property order that keeps duplicate names, not a set.
- A chat message carries `{ username, message }`.
- A name is whatever value `login` received.

## Model

| member | source | states |
|---|---|---|
| `JsValue.Truthy` | server.js:81 | a value is truthy unless it is `undefined`, `null`, `false`, `0` or the empty string (the `if (winner)` test, also used by the fallback at server.js:29) |
| `JsValue.ToStringThrows` | server.js:24 | `${v}` throws exactly for a decoded object with an own `toString` key, or an array that holds one, directly or through nested arrays; primitives always convert |
| `JsValue.Get` | server.js:47 | `data.username` on an object is the last field of that name, or `undefined` when there is none; on any other value that can be read it is `undefined` |
| `JsValue.Or` | server.js:29 | JavaScript's logical or of `a` and `b` yields `a` when it is truthy and `b` otherwise; the result is truthy iff either operand is |
| `Registry.Roster` | server.js:25 | `Object.values(users)` has one entry per key in property order, entry `i` being the value stored under the `i`-th key |
| `Registry.RosterCount` | server.js:25 | each listed connection contributes exactly one occurrence of its name to the roster |
| `Registry.RosterIsValues` | server.js:38 | the broadcast roster is as long as the registry, and each name occurs as many times as there are connections carrying it (duplicates kept) |
| `Registry.Enrol` | server.js:23 | assigning `users[id]` appends a new key at the end and leaves an existing key in place; the result has no repeated key |
| `Registry.EnrolKeysMatch` | server.js:23 | after `users[id] = name` the property order still lists each key of the map exactly once |
| `Registry.Without` | server.js:36 | `delete users[id]` drops exactly `id` from the property order and keeps it free of repeats |
| `Registry.WithoutKeysMatch` | server.js:36 | after `delete users[id]` the property order still lists each key of the map exactly once |
| `Registry.WithoutAbsent` | server.js:36 | deleting an id that is not present changes nothing |
| `Registry.WithoutIdempotent` | server.js:34-38 | a second disconnect of the same id leaves the property order as the first left it |
| `Registry.WithoutKeepsOrder` | server.js:36 | the connections that remain after a delete keep their relative order |
| `Registry.EnrolThenWithout` | server.js:22-38 | a new connection that logs in and then disconnects leaves the property order as it was |
| `Registry.SenderName` | server.js:29 | the sender's name is always truthy: the stored name when it is truthy, otherwise "Anonymous" (for an unregistered id or a falsy stored name) |
| `Registry.SenderNameOfString` | server.js:29 | a stored string name is used unchanged unless it is empty, and an empty one falls back to "Anonymous" |
| `Memory.CatalogDistinct` | server.js:56-65 | the eight catalog images are pairwise distinct |
| `Memory.Doubled` | server.js:66 | `[...EMOJIS, ...EMOJIS]` is the catalog twice over, 16 entries |
| `Memory.Deal` | server.js:69-74 | the cards carry the shuffled faces in order; card `i` has id `i` and is neither flipped nor matched |
| `Memory.FreshState` | server.js:68-77 | the new game state holds the dealt cards (faces in shuffle order, id `i` at position `i`, flags cleared), `moves` 0 and `winner` `null`; `FreshStateShape` and `FreshStatePairs` give its size and face counts |
| `Memory.FreshStateShape` | server.js:68-77 | a fresh deck has 16 cards; card `i` has id `i`; every card is unflipped and unmatched; `moves` is 0 and `winner` is `null` |
| `Memory.FreshStatePairs` | server.js:66-74 | the faces of a fresh deck are the shuffle in order, and each catalog image occurs exactly twice and no other face occurs |
| `AsWritten.LoginAsWritten` | server.js:22-26 | the name is stored before it is logged; the roster is broadcast iff the name can be printed, and the run throws otherwise |
| `AsWritten.LoginAsWrittenSkipsRoster` | server.js:23-25 | logging in under `{"toString": 0}` records the name and broadcasts nothing |
| `AsWritten.MessageAsWritten` | server.js:28-32 | the message is broadcast iff both the sender's name and the text can be printed; otherwise the run throws and sends nothing |
| `AsWritten.MessageAsWrittenSilencesUnprintable` | server.js:29-31 | a connection whose stored name is `{"toString": 0}` gets no message through, whatever it sends |
| `AsWritten.DisconnectAsWritten` | server.js:34-39 | the entry is deleted before its old name is logged; the roster is broadcast iff that name can be printed (or the id was absent) |
| `AsWritten.DisconnectAsWrittenSkipsRoster` | server.js:35-38 | disconnecting the only connection, named `{"toString": 0}`, empties the registry and broadcasts nothing |
| `AsWritten.SubmitAnswerAsWritten` | server.js:46-49 | the answer is broadcast unchanged iff the payload can be read and its `username` and `answer` can be printed; otherwise the run throws and sends nothing |
| `AsWritten.SubmitAnswerAsWrittenDropsEmpty` | server.js:47 | an answer with no payload, a `null` payload, or an unprintable `username` is not broadcast |
| `AsWritten.GameCompleteMemoryAsWritten` | server.js:80-85 | the winner is broadcast iff the claim is truthy, before the log line, which throws only for an unprintable winner |
| `Session.Session.constructor` | server.js:13-14 | a new session has no users, a `null` question and no memory game |
| `Session.Session.Login` | server.js:22-26 | `users[id]` becomes the name, overwriting and not duplicating an existing entry, with every other entry unchanged; the roster broadcast afterwards has one entry per connection |
| `Session.Session.Message` | server.js:28-32 | broadcasts the message under the sender's truthy name or "Anonymous"; no state changes |
| `Session.Session.Disconnect` | server.js:34-39 | removes `id`, leaves every other entry alone, changes nothing when `id` was absent, and broadcasts the roster in either case |
| `Session.Session.StartGame` | server.js:41-44 | stores the question and broadcasts the same payload |
| `Session.Session.SubmitAnswer` | server.js:46-49 | rebroadcasts every answer payload verbatim under `answerReceived`, storing nothing |
| `Session.Session.GameActive` | server.js:51-53 | rebroadcasts the game number verbatim; the active mode is stored nowhere |
| `Session.Session.StartGameMemory` | server.js:55-79 | stores the freshly dealt deck (16 cards, ids 0 to 15 in deck order, faces taken from the shuffle) and broadcasts that same state |
| `Session.Session.GameCompleteMemory` | server.js:80-85 | broadcasts `gameCompletedMemory` with the winner iff the claim is truthy; the game state is untouched, so `winner` is not recorded |

## Left out

- The Express app, the HTTP server, the CORS settings, the `/` route and `listen` on `PORT` (server.js:1-18, server.js:88-91) are bootstrapping and I/O.
- The socket.io transport is not modelled: the `connection` event, how sockets are created, and how `io.emit` delivers to clients. A broadcast is a returned `Event`.
- `console.log` output is not modelled: it is only diagnostics. What the log lines need is modelled, because it can throw. That covers property reads and string conversion in template literals (`JsValue.ToStringThrows`, module `AsWritten`). The `Session` class models the handlers with log lines that do not throw.
- What happens after a handler throws is not modelled. `Run.threw` and `Completion.threw` only record that it did. With socket.io 4 the listener runs from `process.nextTick`, so the exception would by default be uncaught and end the process. That depends on the transport, which is left out.
- `Math.random` and the random-comparator `sort` (server.js:67) are not modelled. The deck is built from any permutation of the doubled catalog, passed in by the caller.
- JavaScript lists integer-like keys (`"12"`) before other keys, in ascending order. The model uses insertion order for every key, because socket.io ids are random 20-character strings.
- `users[id]` on a plain object would also find inherited properties, for an id such as `toString`. Socket ids never take such names, so the model treats a missing key as `undefined`.
- `JsValue.Value` treats numbers as mathematical reals. `NaN` and binary (Buffer) payloads are not modelled. `NaN` cannot arrive as JSON, and a Buffer is an object, which is always truthy.

## Findings

Each handler below logs through a template literal before its broadcast. A payload that cannot be printed therefore stops the broadcast. A decoded object with an own `toString` key is such a payload: `{"toString": 0}` is one, and so is an array holding one. The conversion tries the object's own `toString`, which is not callable. It then tries the inherited `valueOf`, which returns the object itself rather than a primitive, so the conversion throws a TypeError. The corrected members are the `Session` methods, whose broadcast does not depend on the log line.

| source | as written | input that shows it | evidently intended | confidence | as-written member | corrected member |
|---|---|---|---|---|---|---|
| server.js:24 | the name is stored at line 23, then printed in the log line, before the `updateUsers` broadcast at line 25 | `login` with the name `{"toString": 0}`: the name is stored, the conversion throws, and no roster is sent | the roster is broadcast after every login | not executed; high that the conversion throws; with socket.io 4 the throw may also end the process | `AsWritten.LoginAsWrittenSkipsRoster` | `Session.Session.Login` |
| server.js:30 | the sender's name and the text are printed before the `message` broadcast at line 31 | a connection logged in as `{"toString": 0}` sends any message, or any connection sends the message `{"toString": 0}`: nothing is broadcast | every message is broadcast | not executed; high that the conversion throws | `AsWritten.MessageAsWrittenSilencesUnprintable` | `Session.Session.Message` |
| server.js:37 | the entry is deleted at line 36, then its old name is printed, before the roster broadcast at line 38 | the connection logged in as `{"toString": 0}` disconnects: it is removed, but the others are not told | the roster is broadcast after every disconnect | not executed; high that the conversion throws | `AsWritten.DisconnectAsWrittenSkipsRoster` | `Session.Session.Disconnect` |
| server.js:47 | the log line reads `data.username` and `data.answer` and prints them before the `answerReceived` broadcast | `submitAnswer` with no argument, with `null`, or with `{"username": {"toString": 0}}`: the read or the conversion throws and the answer is not rebroadcast | every answer payload is rebroadcast unchanged | not executed; high that the read throws, since only `undefined` and `null` have no properties | `AsWritten.SubmitAnswerAsWrittenDropsEmpty` | `Session.Session.SubmitAnswer` |
