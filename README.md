# Rendezvous chat: a Dafny model

This project models the two programs of a small peer-to-peer chat system.

- **The rendezvous server** (`servidor.py`) accepts TCP connections and keeps a table of logged-in users. The table maps each name to its socket, observed address and declared ports. Credentials live in a SQLite `users` table. Each connection runs `handle_client`, which reads chunks of at most 1024 bytes. It splits each chunk on newlines, decodes each piece as a JSON object and dispatches on its `"action"`:
  - `register` inserts a user;
  - `login` checks the password and records the session;
  - `list_users` answers the other logged-in names;
  - `connect_to_peer` sends each of the two users the other's address.

  When the connection ends, the `finally` block deletes the name the connection last logged in as, if that name is non-empty and still in the table. It deletes it even when a newer login from another connection now owns it. Names the connection logged in as earlier stay in the table.
- **The chat client** (`cliente.py`) is a `P2PClient` object. It holds:
  - a server socket;
  - the name it is logged in as;
  - the port of its own P2P listener;
  - the user list that a background listener keeps up to date.

  It sends newline-framed JSON requests and reads newline-framed replies. Peers send it chat messages directly. Its main loop turns typed lines into commands.

The client sends `"type"`-keyed requests (`REGISTER`, `LOGIN`, `GET_USERS`, `REQUEST_P2P`, `RELAY`, `UPDATE_PRESENCE`) and expects `"type"`-keyed replies. The server reads only `"action"` and answers with `"status"` or `"action"` keys, so neither program understands the other's messages. The model follows each program as written and keeps the two sides apart. The client's replies are inputs: whatever bytes the server socket delivers.

Modules:

| file | module | what it holds |
|---|---|---|
| `wrappers.dfy` | `Wrappers` | `Option`, and `Outcome` (a returned value, or an exception that escapes) |
| `text.dfy` | `Text` | `str.strip`, `str.split(sep)` and `str.split(sep, maxsplit)`, ASCII `str.lower`, `startswith` |
| `json.dfy` | `JsonText` | JSON values, `dict.get` with last-duplicate-wins lookup, Python truthiness, and `json.dumps` with its default `ensure_ascii` output |
| `framing.dfy` | `Framing` | newline framing: `(json.dumps(m) + "\n").encode()`, the line-splitting loops, and `receive_json`'s read loop |
| `registry.dfy` | `Rendezvous` | the server's state and the effect of each request and connection, as functions |
| `registry_facts.dfy` | `RendezvousFacts` | what the server guarantees, proved about those functions |
| `server.dfy` | `ServerLoop` | the server as a class whose methods update its tables in place, proved equal to the functions |
| `client_protocol.dfy` | `ClientProtocol` | the client's requests, how it reads each reply, and its two listening loops as functions |
| `client.dfy` | `Client` | `P2PClient` as a class with its fields and methods, proved against `ClientProtocol` |
| `commands.dfy` | `Commands` | the main loop's parsing of a typed line |

The server's socket I/O is modelled as follows:

- A connection is a `ConnId`.
- What `recv` delivers is a list of `Chunk`s: text that decoded as UTF-8, or bytes that did not.
- Every `sendall` is appended to `wire`.
- A closed connection makes `sendall` raise.

The client's server socket is modelled by two fields:

- `serverOut`: the bytes written so far;
- `serverIn`: the chunks that `recv` will still return.

Two things the client cannot control are inputs:

- whether the server is reachable (`ConnectToServer`'s `reachable`);
- whether `sendall` succeeds (`linkUp`, `peerWritable`).

JSON parsing (`json.loads`, together with `bytes.decode`) is an input function in both programs. It returns `NotUtf8`, `NotJson` or a value. The framing lemmas assume only that it inverts `json.dumps` on the lines they read back.

## Model

| member | source | states |
|---|---|---|
| Text.Strip | servidor.py:68 | `strip()` gives the run of the text that starts after its leading whitespace, with only whitespace after it, and that neither starts nor ends with whitespace |
| Text.StripEmptyIffBlank | servidor.py:68 | a piece is skipped as blank exactly when every character is whitespace (`not msg.strip()`) |
| Text.SplitMax | cliente.py:325 | `split(" ", 2)` gives at most three pieces, which join back to the line; every piece but the last is free of the separator |
| Text.Split | servidor.py:66 | `split("\n")` gives at least one piece, no piece holds a newline, and the pieces joined with newlines give back the text |
| Text.SplitJoin | servidor.py:66 | `split("\n")` is the only cut into newline-free pieces: it inverts joining them with newlines |
| Text.LowerKeepsSpaces | cliente.py:313 | lowering the command line keeps its length and its spaces, so the command word lines up with the typed text |
| Text.LowerAt | cliente.py:313 | lowering works character by character: each character of the lowered line is its own character lowered |
| JsonText.Lookup | cliente.py:136-138 | `msg.get(key)` finds a value exactly when the key is present, and that value is stored under the key |
| JsonText.LookupIsLast | cliente.py:136-138 | the value found is that of the key's last occurrence, as `json.loads` keeps the last duplicate |
| JsonText.EscapeChar | cliente.py:25 | `json.dumps` escapes a character into printable ASCII; an escaped character becomes a backslash sequence |
| JsonText.Encode | cliente.py:25 | `json.dumps(data)` is non-empty printable ASCII, so the frame's only line feed is the one appended |
| JsonText.EscapeAllKeepsPlain | cliente.py:25 | escaping never shortens a string and leaves it unchanged exactly when every character is plain printable ASCII |
| Framing.AsciiBytes | cliente.py:25 | `.encode()` of the JSON text is one byte per character, and none of those bytes is a newline |
| Framing.Frame | cliente.py:25 | a frame ends with a newline, which is its only newline |
| Framing.SplitLines | cliente.py:131-133 | the `while b"\n" in buffer` loop yields newline-free lines and a newline-free remainder |
| Framing.SplitLinesJoin | cliente.py:131-133 | the lines, each followed by a newline, and then the remainder give back the bytes exactly |
| Framing.SplitLinesAfter | cliente.py:224-225 | appending bytes after a complete line never changes the lines already cut |
| Framing.FramesRoundTrip | cliente.py:25 | splitting back-to-back frames of messages gives exactly the JSON texts of those messages |
| Framing.ReadLineIsFirstLine | cliente.py:69-82 | `receive_json`'s loop returns the first line of the stream, or nothing when the stream ends first; the line, the bytes it drops and the unread chunks make up the whole stream |
| Framing.ReadLineUnread | cliente.py:69-82 | the chunks `receive_json` leaves unread are a suffix of the stream it was given: it only ever consumes from the front |
| Framing.ReadLineOneChunk | cliente.py:76-79 | a chunk holding a whole line returns that line and loses the rest of the chunk |
| Framing.ReadLineDropsSecondFrame | cliente.py:76-79 | two frames arriving in one chunk: the first is returned and the second is lost |
| Rendezvous.AddUser | servidor.py:27-39 | the INSERT succeeds exactly for a new name with both values present; it adds that one row with the password given and never changes an existing row |
| Rendezvous.Except | servidor.py:109 | the user list holds exactly the logged-in names other than the caller, and is no longer than the table |
| Rendezvous.RegisterAction | servidor.py:78-83 | `register` leaves `clients` and `current_user` as they were |
| Rendezvous.LoginAction | servidor.py:85-105 | `login` only adds to `clients`; if it changes `current_user`, the new value is the name given, which is then in `clients` |
| Rendezvous.ListUsersAction | servidor.py:107-111 | `list_users` leaves `clients` and `current_user` as they were |
| Rendezvous.Respond | servidor.py:76-138 | no request removes a name from `clients`; only a `login` changes `current_user`, and only to the name it gave, which is then in `clients` |
| Rendezvous.HandlePieces | servidor.py:67-138 | across one chunk's pieces, `clients` only gains names, and a changed `current_user` is a name that is in `clients` |
| Rendezvous.Disconnect | servidor.py:140-147 | the `finally` block removes exactly the name in `current_user` when it is non-empty, leaves every other session as it was, keeps the credentials and the wire, and closes the connection |
| RendezvousFacts.ExceptAbsent | servidor.py:109 | when the caller is not logged in (or is `None`), every logged-in name is listed, in insertion order |
| RendezvousFacts.ExceptDropsOne | servidor.py:146 | deleting a key removes exactly that key and keeps the others in insertion order |
| RendezvousFacts.ExceptNoDuplicates | servidor.py:107-111 | the user list has no repeated names |
| RendezvousFacts.PutSessionValid | servidor.py:91-98 | storing a session keeps the key order and the table in step |
| RendezvousFacts.RemoveSessionValid | servidor.py:143-146 | deleting a session keeps the key order and the table in step |
| RendezvousFacts.RespondValid | servidor.py:76-138 | every request keeps the key order and the table in step |
| RendezvousFacts.RespondTable | servidor.py:76-138 | only an accepted login changes the session table, and then exactly as storing that one session does |
| RendezvousFacts.LoginTable | servidor.py:85-105 | `login` stores the session exactly when the name is no container and the password matches; otherwise the table is untouched |
| RendezvousFacts.ConnectTable | servidor.py:114-136 | `connect_to_peer` never changes the session table |
| RendezvousFacts.RegisterRequest | servidor.py:78-83 | `register` stores the user exactly when both fields are strings and the name is new; it answers ok/"Registered" or error/"Username exists"; nothing else changes |
| RendezvousFacts.LoginAccepted | servidor.py:85-102 | a matching password stores the session under the name, makes it the current user and answers "Logged in" |
| RendezvousFacts.LoginRejected | servidor.py:103-105 | a wrong password changes nothing but the wire, where it answers "Invalid credentials" |
| RendezvousFacts.LoginNeedsStoredPassword | servidor.py:41-49 | `login()` succeeds exactly for a stored name whose stored password is the one given; a missing field never succeeds |
| RendezvousFacts.ListUsersRequest | servidor.py:107-111 | `list_users` answers exactly the other logged-in names, in insertion order, and changes nothing else |
| RendezvousFacts.ConnectRequest | servidor.py:114-136 | with both users online and their sockets open, each socket gets one `peer_info` naming the other user with that user's IP and ports; otherwise the caller gets the "not found or is offline" error, which names the target as `str()` prints it (`None`, `True`, digits or the text); the table never changes |
| RendezvousFacts.ConnectNumberTarget | servidor.py:134-136 | a number as the target is answered "User '5' not found or is offline.", with nothing else changed |
| RendezvousFacts.LoginNameContainerRaises | servidor.py:41-45 | a list or object as the login name raises in the query and ends the connection with nothing changed |
| RendezvousFacts.TargetContainerRaises | servidor.py:115-118 | a list or object as the connect target raises in the table lookup and ends the connection with nothing changed |
| RendezvousFacts.SplitRequestUnanswered | servidor.py:63-74 | a request split across two `recv` chunks is two invalid pieces: nothing is answered and the connection just ends |
| RendezvousFacts.WholeRequestAnswered | servidor.py:63-111 | the same request in one chunk is answered before the connection ends |
| RendezvousFacts.UnknownActionIgnored | servidor.py:137-138 | an unknown action changes nothing |
| RendezvousFacts.RespondFacts | servidor.py:76-138 | a request only appends to the wire, only adds to the credential table and closes no connection |
| RendezvousFacts.HandlePiecesFacts | servidor.py:67-138 | the same holds for all the pieces of one chunk |
| RendezvousFacts.HandlePiecesSkip | servidor.py:67-74 | a blank piece or one that is not JSON is skipped and the loop goes on: removing it from anywhere among a chunk's pieces changes nothing |
| RendezvousFacts.HandleClientFacts | servidor.py:59-147 | a whole connection ends closed, keeps the table valid, only appends to the wire and only adds users |
| RendezvousFacts.DisconnectValid | servidor.py:140-147 | the `finally` block keeps the table valid and closes the connection |
| RendezvousFacts.DisconnectEvictsNewerLogin | servidor.py:143-146 | closing an old connection deletes the name even when a newer login of that name owns the session |
| RendezvousFacts.DisconnectKeepsEmptyName | servidor.py:144 | a session under the empty name is never deleted, because `""` is false |
| RendezvousFacts.EarlierLoginOutlivesConnection | servidor.py:90-146 | two logins with different names on one connection: at the end the first session stays in the table, pointing at the closed connection |
| ServerLoop.Server.constructor | servidor.py:11-25 | a started server has an empty `clients` table and nothing sent; the credential table is whatever the database file already holds, since `init_bd` creates it only if it does not exist |
| ServerLoop.Server.SendAll | servidor.py:82 | `sendall` appends the message to the wire, or raises on a closed connection |
| ServerLoop.Server.Register | servidor.py:27-39 | the insert succeeds exactly for a new name with both values present; only the credential table changes |
| ServerLoop.Server.Dispatch | servidor.py:76-138 | the in-place dispatch on `action` leaves the state, current user and exception given by `Respond` |
| ServerLoop.Server.HandlePieces | servidor.py:66-138 | the in-place loop over one chunk's pieces ends in the state, current user and exception given by `HandlePieces` |
| ServerLoop.Server.Disconnect | servidor.py:140-147 | the in-place `finally` block leaves the state given by `Disconnect` |
| ServerLoop.Server.HandleClient | servidor.py:59-147 | the nested loops and the `finally` block end in the state given by `HandleClient`, with the connection closed and the table valid |
| ClientProtocol.ReceiveResult | cliente.py:69-82 | `receive_json` yields a value exactly when the first line of the stream decodes |
| ClientProtocol.RegisterOutcome | cliente.py:49-52 | a `REGISTER_RES` gives its `ok` and `reason` with their defaults; any other reply gives "No se recibió respuesta"; a true non-object raises |
| ClientProtocol.LoginOutcome | cliente.py:62-67 | login is accepted exactly by a `LOGIN_RES` whose `ok` is true; a true non-object raises |
| ClientProtocol.PeerAddress | cliente.py:163-177 | a peer address comes back exactly from an ok `P2P_INFO` whose `peer` has a true ip and port; it raises when the reply or its `peer` is not an object |
| ClientProtocol.UsersOutcome | cliente.py:210-213 | `get_users` gives the `users` of a `USER_LIST`, `[]` for any other reply, and raises for a true non-object |
| ClientProtocol.ServerMessage | cliente.py:235-250 | only a `USER_LIST` changes the user list; a non-object makes `msg.get` raise |
| ClientProtocol.ListenAppend | cliente.py:224-230 | handling lines in two batches equals handling them at once, and a stop is final |
| ClientProtocol.ListenSkipsNotJson | cliente.py:226-230 | a line that is not JSON can be taken out of any batch without changing the user list or whether the listener stops |
| ClientProtocol.ListenFrames | cliente.py:215-230 | frames of objects read back leave the users of the last `USER_LIST`, however the bytes were chunked |
| ClientProtocol.PeerLine | cliente.py:134-143 | a line that is not UTF-8, or a JSON value that is not an object, ends the loop; a line that is not JSON shows nothing; an object shows its chat line (`MessageChats`) when it is a `P2P_MESSAGE` and nothing otherwise |
| ClientProtocol.PeerLines | cliente.py:126-143 | the messages shown only grow, by at most one per line |
| ClientProtocol.PeerLinesAppend | cliente.py:132-143 | handling lines in two batches equals handling them at once |
| ClientProtocol.PeerLinesOfMessages | cliente.py:132-143 | lines that decode to objects show exactly `Chats` of those objects: the sender and content of each `P2P_MESSAGE`, in order |
| ClientProtocol.PeerFrames | cliente.py:122-143 | frames of objects read back show exactly the chat messages among them, in order, however the bytes were chunked |
| ClientProtocol.PeerLinesSkipNotJson | cliente.py:134-143 | a line that is not JSON can be taken out of any batch without changing what is shown |
| ClientProtocol.PeerShowsChat | cliente.py:184-189 | a peer's chat message, framed and read back, is shown once with its sender and content |
| Client.P2PClient.constructor | cliente.py:13-21 | a new client has no socket, no name, no P2P port and an empty user list |
| Client.P2PClient.ConnectToServer | cliente.py:31-39 | the result is whether the server was reachable; the socket object exists either way |
| Client.P2PClient.SendJson | cliente.py:23-29 | exactly one frame is written when sending succeeds; otherwise nothing is written and the result is false |
| Client.P2PClient.ReceiveJson | cliente.py:69-82 | the reply is the decoded first line of the stream; the chunks consumed are gone and the bytes after the line are lost |
| Client.P2PClient.Register | cliente.py:41-52 | no socket or a failed send give their messages; otherwise the request frame is written and the result is `RegisterOutcome` of the reply |
| Client.P2PClient.Login | cliente.py:54-67 | the request is framed and the result is `LoginOutcome` of the reply; the name is set only when that result is true |
| Client.P2PClient.UpdatePresence | cliente.py:102-111 | presence is announced only with a socket and a non-empty name |
| Client.P2PClient.SetupP2PListener | cliente.py:84-100 | the result is true exactly when binding and `listen` succeed; a bound port is recorded even if `listen` then fails; presence is announced only on success |
| Client.P2PClient.SendP2PMessage | cliente.py:158-194 | asks the server for the peer; succeeds exactly when the reply gives an address and the peer accepts the connection; the peer then receives one chat frame |
| Client.P2PClient.SendRelayMessage | cliente.py:196-203 | one `RELAY` frame to the server, true exactly when sending works |
| Client.P2PClient.GetUsers | cliente.py:205-213 | the request is framed and the result is `UsersOutcome` of the reply |
| Client.P2PClient.HandleServerMessage | cliente.py:235-250 | the user list after one message is the one `ServerMessage` gives; on an exception it is unchanged |
| Client.P2PClient.HandleBufferedLines | cliente.py:224-230 | the inner `while b"\n" in buffer` loop cuts lines off the front of the buffer without losing bytes and leaves the user list that `Listen` gives for all lines cut so far; unless it stops, no newline is left |
| Client.P2PClient.ListenServerMessages | cliente.py:215-233 | the buffered nested loops leave the user list that `Listen` gives for the lines of all received bytes, whatever the chunking |
| Client.P2PClient.HandleP2PConnection | cliente.py:122-147 | the buffered loops show exactly the chat lines that `PeerLines` gives for the lines of the received bytes |
| Client.P2PClient.ShowPeerLines | cliente.py:131-143 | the inner line loop on a peer connection cuts lines without losing bytes and shows what `PeerLines` gives for all lines cut so far |
| Commands.Arguments | cliente.py:325-328 | the target, when present, has no space |
| Commands.ParseCommand | cliente.py:306-352 | a blank line is ignored exactly when it is all whitespace; the p2p and relay branches are taken exactly for lines whose lowered stripped form starts with "p2p " or "relay " |
| Commands.ParseP2PLine | cliente.py:324-334 | a "p2p " line is a P2P command exactly when `split(" ", 2)` gives three parts, and the usage message otherwise |
| Commands.ParseRelayLine | cliente.py:336-346 | a "relay " line is a relay command exactly when `split(" ", 2)` gives three parts, and the usage message otherwise |
| Commands.P2PCommandShape | cliente.py:324-328 | a parsed P2P command is the command word, a space, a space-free target, a space and the message |
| Commands.RelayCommandShape | cliente.py:336-340 | a parsed relay command has the same shape |
| Commands.P2PUsageShape | cliente.py:326-334 | the usage message is shown only when no space follows "p2p " |
| Commands.P2PCommandFromParts | cliente.py:324-329 | conversely, any casing of "p2p", a space-free target and a message ending in a visible character parse to exactly that target and message |
| Commands.RelayCommandFromParts | cliente.py:336-341 | the same for "relay" |

## Left out

- Sockets, threads and locks are not modelled. Each server connection runs to completion as one function of its chunks. The client's listener thread and `receive_json` both read the server socket, and their race over it is not modelled.
- `init_bd` creates the `users` table only if it is missing. The model starts from the users the database file already holds (`ServerLoop.Server.constructor`'s `stored`). It does not model the file or the `id` column.
- `update_last_seen`, `last_seen` and `time.time()` are left out. They touch only the `last_seen` column, which nothing reads.
- `start_server`, `accept_p2p_connections` and `connect_to_peer` are left out. They are socket plumbing; `connect_to_peer`'s outcome is the `connects` input of `SendP2PMessage`.
- `show_menu`, the login menu of `run`, the `help` text and every `print` are left out. They only write to the console. The `running` flag is taken as always true while a loop runs.
- Closing the peer socket after a P2P message is not modelled.
- `cliente_streamlit.py` and `server.py` are not part of this model.
- Rendezvous.StrField: a non-string scalar field (a number, a boolean) is treated as missing. SQLite would instead store a number as text in the `username` column. So `register` and `login` with numeric names behave differently in the program.
- Text.Lower: lowers only `A` to `Z`. Python's `str.lower` also lowers non-ASCII letters.
- JsonText.Encode: integers and strings are written as `json.dumps` writes them. Floats are not modelled.
- JSON parsing is an input function, not a parser. Its only stated property is that it inverts `json.dumps`, and only where a lemma needs that.
- Client.P2PClient.SendP2PMessage: whether the peer received the frame depends on `peerWritable`. An exception inside the send is swallowed, so the result is true either way, as in the program.
