/** What the server's request handling guarantees, proved about the functions of `Rendezvous`. */
module RendezvousFacts {
  import opened Wrappers
  import opened JsonText
  import opened Text
  import opened Rendezvous

  // ---------------------------------------------------------------- the key order

  /** Leaving out a name that is not listed changes nothing. */
  lemma {:induction false} ExceptAbsent(order: seq<string>, current: Option<string>)
    requires current.None? || current.value !in order
    ensures Except(order, current) == order
  {
    if order != [] {
      ExceptAbsent(order[1..], current);
      assert order == [order[0]] + order[1..];
    }
  }

  /** Leaving out a name listed once removes exactly that entry and keeps the others in order. */
  lemma {:induction false} ExceptDropsOne(before: seq<string>, name: string, after: seq<string>)
    requires name !in before && name !in after
    ensures Except(before + [name] + after, Some(name)) == before + after
  {
    if before == [] {
      assert ([name] + after)[1..] == after;
      ExceptAbsent(after, Some(name));
    } else {
      var whole := before + [name] + after;
      assert whole[0] == before[0] != name;
      assert whole[1..] == before[1..] + [name] + after;
      assert Except(whole, Some(name)) == [before[0]] + Except(whole[1..], Some(name));
      ExceptDropsOne(before[1..], name, after);
      assert before + after == [before[0]] + (before[1..] + after);
    }
  }

  lemma {:induction false} ExceptNoDuplicates(order: seq<string>, current: Option<string>)
    requires NoDuplicates(order)
    ensures NoDuplicates(Except(order, current))
  {
    if order != [] {
      ExceptNoDuplicates(order[1..], current);
      var rest := Except(order[1..], current);
      forall j | 0 <= j < |order[1..]|
        ensures order[1..][j] != order[0]
      {
        assert order[1..][j] == order[j + 1];
      }
      assert order[0] !in rest;
    }
  }

  lemma PutSessionValid(st: State, name: string, s: Session)
    requires Valid(st)
    ensures Valid(PutSession(st, name, s))
  {
  }

  lemma RemoveSessionValid(st: State, name: string)
    requires Valid(st)
    ensures Valid(RemoveSession(st, name))
  {
    ExceptNoDuplicates(st.order, Some(name));
  }

  // ---------------------------------------------------------------- one request

  /** Only an accepted `login` touches `clients` and its key order, by storing one session. */
  lemma RespondTable(st: State, conn: ConnId, addr: Addr, current: Option<string>, payload: Json)
    requires payload.JObj?
    ensures var r := Respond(st, conn, addr, current, payload);
      var u := StrField(payload, "username");
      if Get(payload, "action", JNull) == JStr("login") && !IsContainer(Get(payload, "username", JNull))
         && PasswordMatches(st.users, u, StrField(payload, "password"))
      then
        var t := PutSession(st, u.value, Session(conn, addr, Get(payload, "tcp_port", JNull), Get(payload, "udp_port", JNull)));
        r.st.clients == t.clients && r.st.order == t.order
      else r.st.clients == st.clients && r.st.order == st.order
  {
    var action := Get(payload, "action", JNull);
    if action == JStr("login") {
      LoginTable(st, conn, addr, current, payload);
    } else if action == JStr("connect_to_peer") {
      ConnectTable(st, conn, current, payload);
    }
  }

  lemma LoginTable(st: State, conn: ConnId, addr: Addr, current: Option<string>, payload: Json)
    requires payload.JObj?
    ensures var r := LoginAction(st, conn, addr, current, payload);
      var u := StrField(payload, "username");
      if !IsContainer(Get(payload, "username", JNull)) && PasswordMatches(st.users, u, StrField(payload, "password"))
      then
        var t := PutSession(st, u.value, Session(conn, addr, Get(payload, "tcp_port", JNull), Get(payload, "udp_port", JNull)));
        r.st.clients == t.clients && r.st.order == t.order
      else r.st.clients == st.clients && r.st.order == st.order
  {
  }

  lemma ConnectTable(st: State, conn: ConnId, current: Option<string>, payload: Json)
    requires payload.JObj?
    ensures var r := ConnectAction(st, conn, current, payload);
      r.st.clients == st.clients && r.st.order == st.order
  {
  }

  /** Every request keeps the key order in step with `clients`. */
  lemma RespondValid(st: State, conn: ConnId, addr: Addr, current: Option<string>, payload: Json)
    requires payload.JObj? && Valid(st)
    ensures Valid(Respond(st, conn, addr, current, payload).st)
  {
    RespondTable(st, conn, addr, current, payload);
    var u := StrField(payload, "username");
    if Get(payload, "action", JNull) == JStr("login") && !IsContainer(Get(payload, "username", JNull))
       && PasswordMatches(st.users, u, StrField(payload, "password")) {
      PutSessionValid(st, u.value, Session(conn, addr, Get(payload, "tcp_port", JNull), Get(payload, "udp_port", JNull)));
    }
  }

  /**
   * `register` adds the user exactly when both fields are present and the name is new,
   * answers once on `conn`, and never touches `clients` or `current_user`.
   */
  lemma RegisterRequest(st: State, conn: ConnId, addr: Addr, current: Option<string>, payload: Json)
    requires payload.JObj? && Get(payload, "action", JNull) == JStr("register") && conn !in st.closed
    ensures var r := Respond(st, conn, addr, current, payload);
      var u, p := StrField(payload, "username"), StrField(payload, "password");
      var ok := u.Some? && p.Some? && u.value !in st.users;
      && r.st.users == (if ok then st.users[u.value := p.value] else st.users)
      && r.st.wire == st.wire + [Sent(conn, StatusReply(ok, if ok then "Registered" else "Username exists"))]
      && r.st.clients == st.clients && r.st.order == st.order && r.st.closed == st.closed
      && r.current == current && !r.raised
  {
  }

  /**
   * A successful `login` stores this connection, its accepted address and the declared
   * ports under the name (replacing any earlier session, whose place in the key order is
   * kept), makes it `current_user` and answers "ok" once on `conn`.
   */
  lemma LoginAccepted(st: State, conn: ConnId, addr: Addr, current: Option<string>, payload: Json)
    requires payload.JObj? && Get(payload, "action", JNull) == JStr("login") && conn !in st.closed
    requires PasswordMatches(st.users, StrField(payload, "username"), StrField(payload, "password"))
    ensures var r := Respond(st, conn, addr, current, payload);
      var u := StrField(payload, "username").value;
      && r.st.clients == st.clients[u := Session(conn, addr, Get(payload, "tcp_port", JNull), Get(payload, "udp_port", JNull))]
      && r.st.order == (if u in st.clients then st.order else st.order + [u])
      && r.current == Some(u)
      && r.st.wire == st.wire + [Sent(conn, StatusReply(true, "Logged in"))]
      && r.st.users == st.users && !r.raised
  {
  }

  /** A failed `login` changes nothing but the wire, where it answers "Invalid credentials" once. */
  lemma LoginRejected(st: State, conn: ConnId, addr: Addr, current: Option<string>, payload: Json)
    requires payload.JObj? && Get(payload, "action", JNull) == JStr("login") && conn !in st.closed
    requires !PasswordMatches(st.users, StrField(payload, "username"), StrField(payload, "password"))
    requires !IsContainer(Get(payload, "username", JNull))
    ensures var r := Respond(st, conn, addr, current, payload);
      && r.st == st.(wire := st.wire + [Sent(conn, StatusReply(false, "Invalid credentials"))])
      && r.current == current && !r.raised
  {
  }

  /** `login()` succeeds exactly for a stored user whose stored password is the one given. */
  lemma LoginNeedsStoredPassword(users: map<string, string>, u: string, p: string)
    ensures PasswordMatches(users, Some(u), Some(p)) <==> u in users && users[u] == p
    ensures !PasswordMatches(users, None, Some(p)) && !PasswordMatches(users, Some(u), None)
  {
  }

  /**
   * `list_users` answers once on `conn` with every logged-in name except `current_user`,
   * each once, in insertion order, and changes nothing else.
   */
  lemma ListUsersRequest(st: State, conn: ConnId, addr: Addr, current: Option<string>, payload: Json)
    requires payload.JObj? && Get(payload, "action", JNull) == JStr("list_users") && conn !in st.closed
    requires Valid(st)
    ensures var r := Respond(st, conn, addr, current, payload);
      var names := Except(st.order, current);
      && r.st == st.(wire := st.wire + [Sent(conn, UserListReply(names))])
      && r.current == current && !r.raised
      && (forall u :: u in names <==> u in st.clients && Some(u) != current)
      && NoDuplicates(names)
  {
    ExceptNoDuplicates(st.order, current);
  }

  /**
   * `connect_to_peer` with both names logged in sends each stored socket one `peer_info`
   * naming the other user with that user's observed IP and declared ports; otherwise it
   * sends one error on `conn`. It never changes `clients`.
   */
  lemma ConnectRequest(st: State, conn: ConnId, addr: Addr, current: Option<string>, payload: Json)
    requires payload.JObj? && Get(payload, "action", JNull) == JStr("connect_to_peer")
    requires !IsContainer(Get(payload, "target_username", JNull))
    ensures var r := Respond(st, conn, addr, current, payload);
      var t := StrField(payload, "target_username");
      && r.st.clients == st.clients && r.st.order == st.order && r.st.users == st.users
      && r.current == current
      && (if t.Some? && t.value in st.clients && current.Some? && current.value in st.clients then
            var me, peer := st.clients[current.value], st.clients[t.value];
            me.sock !in st.closed && peer.sock !in st.closed ==>
              && r.st.wire == st.wire + [Sent(me.sock, PeerInfo(t.value, peer)), Sent(peer.sock, PeerInfo(current.value, me))]
              && !r.raised
          else
            conn !in st.closed ==> r.st.wire == st.wire + [Sent(conn, NotFoundReply(Get(payload, "target_username", JNull)))] && !r.raised)
  {
  }

  /** A number as the connect target is never a logged-in name, and the error prints it as Python does. */
  lemma ConnectNumberTarget(st: State, conn: ConnId, addr: Addr, current: Option<string>)
    requires conn !in st.closed
    ensures var payload := JObj([Member("action", JStr("connect_to_peer")), Member("target_username", JInt(5))]);
      var r := Respond(st, conn, addr, current, payload);
      r == Step(st.(wire := st.wire + [Sent(conn, StatusReply(false, "User '5' not found or is offline."))]), current, false)
  {
    var payload := JObj([Member("action", JStr("connect_to_peer")), Member("target_username", JInt(5))]);
    assert Get(payload, "action", JNull) == JStr("connect_to_peer") by {
      assert payload.members[..1] == [Member("action", JStr("connect_to_peer"))];
    }
    assert Get(payload, "target_username", JNull) == JInt(5);
    NotFoundFive();
  }

  lemma NotFoundFive()
    ensures NotFoundReply(JInt(5)) == StatusReply(false, "User '5' not found or is offline.")
  {
    assert ScalarText(JInt(5)) == "5";
    assert "User '" + "5" + "' not found or is offline." == "User '5' not found or is offline.";
  }

  /** A list or object as the login name cannot be bound as a query parameter: the exception ends the connection. */
  lemma LoginNameContainerRaises(st: State, conn: ConnId, addr: Addr, current: Option<string>, payload: Json)
    requires payload.JObj? && Get(payload, "action", JNull) == JStr("login")
    requires IsContainer(Get(payload, "username", JNull))
    ensures Respond(st, conn, addr, current, payload) == Step(st, current, true)
  {
  }

  /** A list or object as the connect target cannot be looked up among the keys: the exception ends the connection. */
  lemma TargetContainerRaises(st: State, conn: ConnId, addr: Addr, current: Option<string>, payload: Json)
    requires payload.JObj? && Get(payload, "action", JNull) == JStr("connect_to_peer")
    requires IsContainer(Get(payload, "target_username", JNull))
    ensures Respond(st, conn, addr, current, payload) == Step(st, current, true)
  {
  }

  /**
   * The server splits each `recv` chunk on its own: a request whose two halves arrive in
   * separate chunks, neither of which is JSON by itself, is never answered.
   */
  lemma SplitRequestUnanswered(st: State, conn: ConnId, addr: Addr, current: Option<string>,
                               first: string, second: string, parse: string -> Option<Json>)
    requires '\n' !in first && '\n' !in second && first != [] && second != []
    requires parse(first).None? && parse(second).None?
    ensures HandleClient(st, conn, addr, current, [Data(first), Data(second)], parse) == Disconnect(st, conn, current)
  {
    SplitJoin([first], '\n');
    SplitJoin([second], '\n');
    assert [first][1..] == [] && [second][1..] == [];
    assert HandlePieces(st, conn, addr, current, [first], parse) == Step(st, current, false);
    assert HandlePieces(st, conn, addr, current, [second], parse) == Step(st, current, false);
    var chunks := [Data(first), Data(second)];
    assert chunks[1..] == [Data(second)] && chunks[1..][1..] == [];
    calc {
      HandleClient(st, conn, addr, current, chunks, parse);
      HandleClient(st, conn, addr, current, [Data(second)], parse);
      HandleClient(st, conn, addr, current, [], parse);
    }
  }

  /** The same request in one chunk is answered: `list_users` gets its reply before the connection closes. */
  lemma WholeRequestAnswered(st: State, conn: ConnId, addr: Addr, current: Option<string>,
                             request: string, parse: string -> Option<Json>)
    requires '\n' !in request && Strip(request) != [] && conn !in st.closed
    requires parse(request) == Some(JObj([Member("action", JStr("list_users"))]))
    ensures HandleClient(st, conn, addr, current, [Data(request)], parse).wire
         == st.wire + [Sent(conn, UserListReply(Except(st.order, current)))]
  {
    SplitJoin([request], '\n');
    assert [request][1..] == [];
    assert [Data(request)][1..] == [];
    var payload := JObj([Member("action", JStr("list_users"))]);
    assert Get(payload, "action", JNull) == JStr("list_users");
    var r := Respond(st, conn, addr, current, payload);
    assert r.st.wire == st.wire + [Sent(conn, UserListReply(Except(st.order, current)))] && !r.raised;
    assert HandlePieces(st, conn, addr, current, [request], parse) == Step(r.st, r.current, false);
  }

  /** An action the server does not know is ignored. */
  lemma UnknownActionIgnored(st: State, conn: ConnId, addr: Addr, current: Option<string>, payload: Json)
    requires payload.JObj?
    requires Get(payload, "action", JNull) !in {JStr("register"), JStr("login"), JStr("list_users"), JStr("connect_to_peer")}
    ensures Respond(st, conn, addr, current, payload) == Step(st, current, false)
  {
  }

  // ---------------------------------------------------------------- whole connections

  /** Sending only ever appends, and the credential table only grows. */
  predicate Extends(before: State, after: State) {
    && |before.wire| <= |after.wire| && after.wire[..|before.wire|] == before.wire
    && before.users.Keys <= after.users.Keys
    && (forall u :: u in before.users ==> after.users[u] == before.users[u])
    && before.closed <= after.closed
  }

  lemma ExtendsTrans(a: State, b: State, c: State)
    requires Extends(a, b) && Extends(b, c)
    ensures Extends(a, c)
  {
    assert c.wire[..|a.wire|] == c.wire[..|b.wire|][..|a.wire|];
  }

  lemma RespondFacts(st: State, conn: ConnId, addr: Addr, current: Option<string>, payload: Json)
    requires payload.JObj? && Valid(st)
    ensures var s := Respond(st, conn, addr, current, payload);
      Valid(s.st) && Extends(st, s.st) && s.st.closed == st.closed
  {
    RespondValid(st, conn, addr, current, payload);
    var action := Get(payload, "action", JNull);
    if action == JStr("register") {
      RegisterExtends(st, conn, current, payload);
    } else if action == JStr("login") {
      LoginExtends(st, conn, addr, current, payload);
    } else if action == JStr("list_users") {
      SendExtends(st, conn, UserListReply(Except(st.order, current)));
    } else if action == JStr("connect_to_peer") {
      ConnectExtends(st, conn, current, payload);
    }
  }

  lemma RegisterExtends(st: State, conn: ConnId, current: Option<string>, payload: Json)
    requires payload.JObj?
    ensures var s := RegisterAction(st, conn, current, payload);
      Extends(st, s.st) && s.st.closed == st.closed
  {
    var (users, ok) := AddUser(st.users, StrField(payload, "username"), StrField(payload, "password"));
    var st0 := st.(users := users);
    SendExtends(st0, conn, StatusReply(ok, if ok then "Registered" else "Username exists"));
    ExtendsTrans(st, st0, RegisterAction(st, conn, current, payload).st);
  }

  lemma LoginExtends(st: State, conn: ConnId, addr: Addr, current: Option<string>, payload: Json)
    requires payload.JObj?
    ensures var s := LoginAction(st, conn, addr, current, payload);
      Extends(st, s.st) && s.st.closed == st.closed
  {
    var username := StrField(payload, "username");
    if IsContainer(Get(payload, "username", JNull)) {
    } else if PasswordMatches(st.users, username, StrField(payload, "password")) {
      var sess := Session(conn, addr, Get(payload, "tcp_port", JNull), Get(payload, "udp_port", JNull));
      SendExtends(PutSession(st, username.value, sess), conn, StatusReply(true, "Logged in"));
    } else {
      SendExtends(st, conn, StatusReply(false, "Invalid credentials"));
    }
  }

  lemma ConnectExtends(st: State, conn: ConnId, current: Option<string>, payload: Json)
    requires payload.JObj?
    ensures var s := ConnectAction(st, conn, current, payload);
      Extends(st, s.st) && s.st.closed == st.closed
  {
    var target := StrField(payload, "target_username");
    if IsContainer(Get(payload, "target_username", JNull)) {
    } else if target.Some? && target.value in st.clients && current.Some? && current.value in st.clients {
      var me, peer := st.clients[current.value], st.clients[target.value];
      var (st1, raised1) := Send(st, me.sock, PeerInfo(target.value, peer));
      SendExtends(st, me.sock, PeerInfo(target.value, peer));
      if !raised1 {
        SendExtends(st1, peer.sock, PeerInfo(current.value, me));
        ExtendsTrans(st, st1, ConnectAction(st, conn, current, payload).st);
      }
    } else {
      SendExtends(st, conn, NotFoundReply(Get(payload, "target_username", JNull)));
    }
  }

  lemma SendExtends(st: State, to: ConnId, msg: Json)
    ensures Extends(st, Send(st, to, msg).0) && Send(st, to, msg).0.closed == st.closed
  {
  }

  /**
   * A blank piece or one that is not JSON is skipped and the loop goes on: taking it out of
   * a chunk's pieces changes nothing, wherever it stands.
   */
  lemma {:induction false} HandlePiecesSkip(st: State, conn: ConnId, addr: Addr, current: Option<string>,
                                            a: seq<string>, p: string, b: seq<string>, parse: string -> Option<Json>)
    requires Strip(p) == [] || parse(p).None?
    ensures HandlePieces(st, conn, addr, current, a + [p] + b, parse) == HandlePieces(st, conn, addr, current, a + b, parse)
    decreases |a|
  {
    if a == [] {
      assert a + [p] + b == [p] + b && ([p] + b)[1..] == b && a + b == b;
    } else {
      assert (a + [p] + b)[0] == a[0] && (a + [p] + b)[1..] == a[1..] + [p] + b;
      assert (a + b)[0] == a[0] && (a + b)[1..] == a[1..] + b;
      if Strip(a[0]) == [] || parse(a[0]).None? {
        HandlePiecesSkip(st, conn, addr, current, a[1..], p, b, parse);
      } else if parse(a[0]).value.JObj? {
        var s := Respond(st, conn, addr, current, parse(a[0]).value);
        if !s.raised {
          HandlePiecesSkip(s.st, conn, addr, s.current, a[1..], p, b, parse);
        }
      }
    }
  }

  lemma {:induction false} HandlePiecesFacts(st: State, conn: ConnId, addr: Addr, current: Option<string>,
                                             pieces: seq<string>, parse: string -> Option<Json>)
    requires Valid(st)
    ensures var s := HandlePieces(st, conn, addr, current, pieces, parse);
      Valid(s.st) && Extends(st, s.st) && s.st.closed == st.closed
    decreases |pieces|
  {
    if pieces != [] && Strip(pieces[0]) != [] && parse(pieces[0]).Some? && parse(pieces[0]).value.JObj? {
      var s := Respond(st, conn, addr, current, parse(pieces[0]).value);
      RespondFacts(st, conn, addr, current, parse(pieces[0]).value);
      if !s.raised {
        HandlePiecesFacts(s.st, conn, addr, s.current, pieces[1..], parse);
        ExtendsTrans(st, s.st, HandlePieces(s.st, conn, addr, s.current, pieces[1..], parse).st);
      }
    } else if pieces != [] {
      HandlePiecesFacts(st, conn, addr, current, pieces[1..], parse);
    }
  }

  /** One chunk of `handle_client`: its pieces are handled, then either the connection ends or the next chunk follows. */
  lemma HandleClientUnfold(st: State, conn: ConnId, addr: Addr, current: Option<string>,
                           chunks: seq<Chunk>, parse: string -> Option<Json>)
    requires chunks != [] && chunks[0].Data? && chunks[0].text != []
    ensures var s := HandlePieces(st, conn, addr, current, Split(chunks[0].text, '\n'), parse);
      HandleClient(st, conn, addr, current, chunks, parse)
        == if s.raised then Disconnect(s.st, conn, s.current) else HandleClient(s.st, conn, addr, s.current, chunks[1..], parse)
  {
  }

  /**
   * However the connection ends, `conn` ends up closed, the key order still matches
   * `clients`, and nothing already sent or registered is undone.
   */
  lemma {:induction false} HandleClientFacts(st: State, conn: ConnId, addr: Addr, current: Option<string>,
                                             chunks: seq<Chunk>, parse: string -> Option<Json>)
    requires Valid(st)
    ensures var end := HandleClient(st, conn, addr, current, chunks, parse);
      conn in end.closed && Valid(end) && Extends(st, end)
    decreases |chunks|
  {
    if chunks == [] || chunks[0].Undecodable? || chunks[0].text == [] {
      DisconnectValid(st, conn, current);
    } else {
      var s := HandlePieces(st, conn, addr, current, Split(chunks[0].text, '\n'), parse);
      HandlePiecesFacts(st, conn, addr, current, Split(chunks[0].text, '\n'), parse);
      if s.raised {
        DisconnectValid(s.st, conn, s.current);
        ExtendsTrans(st, s.st, Disconnect(s.st, conn, s.current));
      } else {
        HandleClientFacts(s.st, conn, addr, s.current, chunks[1..], parse);
        ExtendsTrans(st, s.st, HandleClient(s.st, conn, addr, s.current, chunks[1..], parse));
      }
    }
  }

  lemma DisconnectValid(st: State, conn: ConnId, current: Option<string>)
    requires Valid(st)
    ensures Valid(Disconnect(st, conn, current)) && Extends(st, Disconnect(st, conn, current))
    ensures conn in Disconnect(st, conn, current).closed
  {
    if current.Some? && current.value != "" && current.value in st.clients {
      RemoveSessionValid(st, current.value);
    }
  }

  // ---------------------------------------------------------------- disconnect cleanup

  /**
   * Cleanup removes `current_user` by name alone: if a later login on another connection
   * replaced the session, that newer session is removed all the same.
   */
  lemma DisconnectEvictsNewerLogin(st: State, conn: ConnId, name: string)
    requires Valid(st) && name != "" && name in st.clients && st.clients[name].sock != conn
    ensures var end := Disconnect(st, conn, Some(name));
      && name !in end.clients
      && end.clients == st.clients - {name}
      && end.order == Except(st.order, Some(name))
  {
  }

  /** The empty name is false in Python, so a session stored under "" is never removed at disconnect. */
  lemma DisconnectKeepsEmptyName(st: State, conn: ConnId)
    requires "" in st.clients
    ensures Disconnect(st, conn, Some("")).clients == st.clients
    ensures conn in Disconnect(st, conn, Some("")).closed
  {
  }

  /**
   * A connection that logs in as `first` and then as `second` leaves the session of
   * `first` behind when it closes, still pointing at the closed connection.
   */
  lemma EarlierLoginOutlivesConnection(st: State, conn: ConnId, addr: Addr, login1: Json, login2: Json)
    requires Valid(st) && conn !in st.closed
    requires login1.JObj? && Get(login1, "action", JNull) == JStr("login")
    requires login2.JObj? && Get(login2, "action", JNull) == JStr("login")
    requires PasswordMatches(st.users, StrField(login1, "username"), StrField(login1, "password"))
    requires PasswordMatches(st.users, StrField(login2, "username"), StrField(login2, "password"))
    requires StrField(login1, "username") != StrField(login2, "username")
    ensures var first := StrField(login1, "username").value;
      var s1 := Respond(st, conn, addr, None, login1);
      var s2 := Respond(s1.st, conn, addr, s1.current, login2);
      var end := Disconnect(s2.st, conn, s2.current);
      first in end.clients && end.clients[first].sock == conn && conn in end.closed
  {
    LoginAccepted(st, conn, addr, None, login1);
    var s1 := Respond(st, conn, addr, None, login1);
    LoginAccepted(s1.st, conn, addr, s1.current, login2);
  }
}
