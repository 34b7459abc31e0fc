/**
 * The rendezvous server's state and the effect of each request on it, as values.
 * `handle_client` runs once per accepted connection; everything it touches that
 * outlives one request lives in `State`: the `clients` table (with its key order,
 * since Python dictionaries iterate in insertion order), the `users` table of the
 * credential database, every message sent so far, and which connections are closed.
 */
module Rendezvous {
  import opened Wrappers
  import opened JsonText
  import opened Text

  /** Identifies one accepted connection (its socket object). */
  type ConnId = nat

  /** The peer address `accept()` returned: `(ip, port)`. */
  datatype Addr = Addr(ip: string, port: int)

  /** One value of `clients`: the connection, its address and the ports the client declared. */
  datatype Session = Session(sock: ConnId, addr: Addr, tcpPort: Json, udpPort: Json)

  /** One `sendall` of a JSON message on a connection. */
  datatype Sent = Sent(to: ConnId, msg: Json)

  /** What one `recv` delivered: text after `data.decode()`, or bytes that are not UTF-8. */
  datatype Chunk = Data(text: string) | Undecodable

  datatype State = State(
    clients: map<string, Session>,
    order: seq<string>,            // the keys of `clients`, in insertion order
    users: map<string, string>,    // the `users` table: username to password
    wire: seq<Sent>,               // every message sent so far, oldest first
    closed: set<ConnId>)           // connections already closed

  /** `handle_client` part way: the state, its `current_user`, and whether an exception escaped. */
  datatype Step = Step(st: State, current: Option<string>, raised: bool)

  predicate NoDuplicates(s: seq<string>) {
    forall i, j :: 0 <= i < j < |s| ==> s[i] != s[j]
  }

  /** `order` lists every key of `clients` exactly once. */
  predicate Valid(st: State) {
    && NoDuplicates(st.order)
    && (forall u :: u in st.order ==> u in st.clients)
    && (forall u :: u in st.clients ==> u in st.order)
  }

  // ---------------------------------------------------------------- messages

  /** A string field of a request; a missing field, `null` or any non-string value gives None. */
  function StrField(payload: Json, key: string): Option<string>
    requires payload.JObj?
  {
    match Get(payload, key, JNull)
    case JStr(s) => Some(s)
    case _ => None
  }

  /**
   * A list or an object: SQLite cannot bind it as a query parameter, and Python cannot
   * hash it to look it up among the keys of `clients`; both raise.
   */
  predicate IsContainer(v: Json) {
    v.JArr? || v.JObj?
  }

  /** `{"status": "ok" | "error", "msg": msg}` */
  function StatusReply(ok: bool, msg: string): Json {
    JObj([Member("status", JStr(if ok then "ok" else "error")), Member("msg", JStr(msg))])
  }

  /** `{"action": "user_list", "users": names}` */
  function UserListReply(names: seq<string>): Json {
    JObj([Member("action", JStr("user_list")),
          Member("users", JArr(seq(|names|, i requires 0 <= i < |names| => JStr(names[i]))))])
  }

  /** `{"action": "peer_info", ...}` naming `name` and giving that user's observed IP and declared ports. */
  function PeerInfo(name: string, s: Session): Json {
    JObj([Member("action", JStr("peer_info")), Member("peer_username", JStr(name)),
          Member("ip", JStr(s.addr.ip)), Member("tcp_port", s.tcpPort), Member("udp_port", s.udpPort)])
  }

  /** `str(v)` of a JSON scalar as Python prints it: `None`, `True`/`False`, the digits, or the text itself. */
  function ScalarText(v: Json): string
    requires !IsContainer(v)
  {
    match v
    case JNull => "None"
    case JBool(b) => if b then "True" else "False"
    case JInt(i) => IntText(i)
    case JStr(s) => s
  }

  /** The error for a `connect_to_peer` that cannot be brokered, naming the target as the f-string prints it. */
  function NotFoundReply(target: Json): Json
    requires !IsContainer(target)
  {
    StatusReply(false, "User '" + ScalarText(target) + "' not found or is offline.")
  }

  // ---------------------------------------------------------------- primitive steps

  /** `sock.sendall(...)`: appended to the wire, or an exception when the socket is closed. */
  function Send(st: State, to: ConnId, msg: Json): (r: (State, bool))
    ensures r.1 <==> to in st.closed
    ensures r.0 == if r.1 then st else st.(wire := st.wire + [Sent(to, msg)])
  {
    if to in st.closed then (st, true) else (st.(wire := st.wire + [Sent(to, msg)]), false)
  }

  /**
   * `register()`: the INSERT succeeds unless a NOT NULL value is missing or the UNIQUE
   * username already exists; every failure is reported as "Username exists".
   */
  function AddUser(users: map<string, string>, username: Option<string>, password: Option<string>)
    : (r: (map<string, string>, bool))
    ensures r.1 <==> username.Some? && password.Some? && username.value !in users
    ensures r.0.Keys == if r.1 then users.Keys + {username.value} else users.Keys
    ensures forall u :: u in users ==> u in r.0 && r.0[u] == users[u]
    ensures r.1 ==> r.0[username.value] == password.value
  {
    if username.Some? && password.Some? && username.value !in users
    then (users[username.value := password.value], true)
    else (users, false)
  }

  /** `login()`: a row exists for the username and its password equals the one supplied. */
  predicate PasswordMatches(users: map<string, string>, username: Option<string>, password: Option<string>) {
    username.Some? && username.value in users && password == Some(users[username.value])
  }

  /** The names of `order` other than `current`, in order: `[u for u in clients if u != current_user]`. */
  function Except(order: seq<string>, current: Option<string>): (r: seq<string>)
    ensures |r| <= |order|
    ensures forall u :: u in r <==> u in order && Some(u) != current
  {
    if order == [] then []
    else if Some(order[0]) == current then Except(order[1..], current)
    else [order[0]] + Except(order[1..], current)
  }

  /** `clients[name] = s`: a new name goes last in the key order, a known one keeps its place. */
  function PutSession(st: State, name: string, s: Session): State {
    st.(clients := st.clients[name := s],
        order := if name in st.clients then st.order else st.order + [name])
  }

  /** `del clients[name]` */
  function RemoveSession(st: State, name: string): State {
    st.(clients := st.clients - {name}, order := Except(st.order, Some(name)))
  }

  // ---------------------------------------------------------------- handle_client

  /** `register`: insert the user and answer on `conn`. */
  function RegisterAction(st: State, conn: ConnId, current: Option<string>, payload: Json): (r: Step)
    requires payload.JObj?
    ensures r.current == current && r.st.clients == st.clients
  {
    var (users, ok) := AddUser(st.users, StrField(payload, "username"), StrField(payload, "password"));
    var (st1, raised) := Send(st.(users := users), conn, StatusReply(ok, if ok then "Registered" else "Username exists"));
    Step(st1, current, raised)
  }

  /** `login`: on a matching password store the session and make it `current_user`; answer on `conn`. */
  function LoginAction(st: State, conn: ConnId, addr: Addr, current: Option<string>, payload: Json): (r: Step)
    requires payload.JObj?
    ensures st.clients.Keys <= r.st.clients.Keys
    ensures r.current != current ==>
      r.current == StrField(payload, "username") && r.current.Some? && r.current.value in r.st.clients
  {
    var username := StrField(payload, "username");
    if IsContainer(Get(payload, "username", JNull)) then Step(st, current, true)
    else if PasswordMatches(st.users, username, StrField(payload, "password")) then
      var s := Session(conn, addr, Get(payload, "tcp_port", JNull), Get(payload, "udp_port", JNull));
      var (st1, raised) := Send(PutSession(st, username.value, s), conn, StatusReply(true, "Logged in"));
      Step(st1, username, raised)
    else
      var (st1, raised) := Send(st, conn, StatusReply(false, "Invalid credentials"));
      Step(st1, current, raised)
  }

  /** `list_users`: answer the names of `clients` other than `current_user`. */
  function ListUsersAction(st: State, conn: ConnId, current: Option<string>): (r: Step)
    ensures r.current == current && r.st.clients == st.clients
  {
    var (st1, raised) := Send(st, conn, UserListReply(Except(st.order, current)));
    Step(st1, current, raised)
  }

  /** `connect_to_peer`: send each of the two users the other's address, or answer an error on `conn`. */
  function ConnectAction(st: State, conn: ConnId, current: Option<string>, payload: Json): Step
    requires payload.JObj?
  {
    var target := StrField(payload, "target_username");
    if IsContainer(Get(payload, "target_username", JNull)) then Step(st, current, true)
    else if target.Some? && target.value in st.clients && current.Some? && current.value in st.clients then
      var me, peer := st.clients[current.value], st.clients[target.value];
      var (st1, raised1) := Send(st, me.sock, PeerInfo(target.value, peer));
      if raised1 then Step(st1, current, true)
      else
        var (st2, raised2) := Send(st1, peer.sock, PeerInfo(current.value, me));
        Step(st2, current, raised2)
    else
      var (st1, raised) := Send(st, conn, NotFoundReply(Get(payload, "target_username", JNull)));
      Step(st1, current, raised)
  }

  /** The reaction of `handle_client` to one decoded JSON object, dispatched on its "action". */
  function Respond(st: State, conn: ConnId, addr: Addr, current: Option<string>, payload: Json): (r: Step)
    requires payload.JObj?
    ensures st.clients.Keys <= r.st.clients.Keys
    ensures r.current != current ==>
      && Get(payload, "action", JNull) == JStr("login") && r.current == StrField(payload, "username")
      && r.current.Some? && r.current.value in r.st.clients
  {
    var action := Get(payload, "action", JNull);
    if action == JStr("register") then RegisterAction(st, conn, current, payload)
    else if action == JStr("login") then LoginAction(st, conn, addr, current, payload)
    else if action == JStr("list_users") then ListUsersAction(st, conn, current)
    else if action == JStr("connect_to_peer") then ConnectAction(st, conn, current, payload)
    else Step(st, current, false)
  }

  /**
   * The inner `for msg in messages` loop over the pieces of one chunk: blank pieces and
   * invalid JSON are skipped; a JSON value that is not an object makes `payload.get` raise.
   */
  function HandlePieces(st: State, conn: ConnId, addr: Addr, current: Option<string>,
                        pieces: seq<string>, parse: string -> Option<Json>): (r: Step)
    ensures st.clients.Keys <= r.st.clients.Keys
    ensures r.current != current ==> r.current.Some? && r.current.value in r.st.clients
    decreases |pieces|
  {
    if pieces == [] then Step(st, current, false)
    else if Strip(pieces[0]) == [] then HandlePieces(st, conn, addr, current, pieces[1..], parse)
    else match parse(pieces[0])
      case None => HandlePieces(st, conn, addr, current, pieces[1..], parse)
      case Some(payload) =>
        if !payload.JObj? then Step(st, current, true)
        else
          var s := Respond(st, conn, addr, current, payload);
          if s.raised then s else HandlePieces(s.st, conn, addr, s.current, pieces[1..], parse)
  }

  /** The `finally` block: forget `current_user` if it is a non-empty name still in `clients`, close `conn`. */
  function Disconnect(st: State, conn: ConnId, current: Option<string>): (r: State)
    ensures r.clients.Keys == if current.Some? && current.value != "" then st.clients.Keys - {current.value} else st.clients.Keys
    ensures forall u :: u in r.clients ==> r.clients[u] == st.clients[u]
    ensures r.users == st.users && r.wire == st.wire && r.closed == st.closed + {conn}
  {
    var st1 := if current.Some? && current.value != "" && current.value in st.clients
               then RemoveSession(st, current.value) else st;
    st1.(closed := st1.closed + {conn})
  }

  /**
   * `handle_client` from the given point to its end: each chunk is split on "\n" on its
   * own, with nothing carried over to the next chunk; end of stream, undecodable bytes
   * or an exception end the loop, and `Disconnect` runs in every case.
   */
  function HandleClient(st: State, conn: ConnId, addr: Addr, current: Option<string>,
                        chunks: seq<Chunk>, parse: string -> Option<Json>): State
    decreases |chunks|
  {
    if chunks == [] || chunks[0].Undecodable? || chunks[0].text == [] then Disconnect(st, conn, current)
    else
      var s := HandlePieces(st, conn, addr, current, Split(chunks[0].text, '\n'), parse);
      if s.raised then Disconnect(s.st, conn, s.current)
      else HandleClient(s.st, conn, addr, s.current, chunks[1..], parse)
  }
}
