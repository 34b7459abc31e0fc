/**
 * The server process: the `clients` dictionary and the credential table are shared,
 * mutable state, and `handle_client` changes them request by request. Each method is
 * proved to have exactly the effect the functions of `Rendezvous` describe.
 */
module ServerLoop {
  import opened Wrappers
  import opened JsonText
  import opened Text
  import opened Rendezvous
  import RendezvousFacts

  class Server {
    var clients: map<string, Session>
    var order: seq<string>           // the keys of `clients`, in insertion order
    var users: map<string, string>   // the `users` table of the database
    var wire: seq<Sent>              // every message sent so far
    var closed: set<ConnId>          // connections already closed

    function Abs(): State
      reads this
    {
      State(clients, order, users, wire, closed)
    }

    /**
     * A started server: nobody logged in and nothing sent. `init_bd` creates the `users`
     * table only if it does not exist, so `stored` is every user the database file already holds.
     */
    constructor (stored: map<string, string>)
      ensures Abs() == State(map[], [], stored, [], {})
      ensures Valid(Abs())
    {
      clients, order, users, wire, closed := map[], [], stored, [], {};
    }

    /** `sock.sendall(json.dumps(msg) + "\n")`, which raises on a closed socket. */
    method SendAll(to: ConnId, msg: Json) returns (raised: bool)
      modifies this
      ensures (Abs(), raised) == Send(old(Abs()), to, msg)
    {
      if to in closed {
        raised := true;
      } else {
        wire := wire + [Sent(to, msg)];
        raised := false;
      }
    }

    /** `register()`: insert the row unless a value is missing or the name is taken. */
    method Register(username: Option<string>, password: Option<string>) returns (ok: bool, msg: string)
      modifies this
      ensures ok <==> username.Some? && password.Some? && username.value !in old(users)
      ensures users == if ok then old(users)[username.value := password.value] else old(users)
      ensures msg == if ok then "Registered" else "Username exists"
      ensures clients == old(clients) && order == old(order) && wire == old(wire) && closed == old(closed)
    {
      if username.Some? && password.Some? && username.value !in users {
        users := users[username.value := password.value];
        ok, msg := true, "Registered";
      } else {
        ok, msg := false, "Username exists";
      }
    }

    /** The `if action == ... elif ...` chain of `handle_client` for one decoded object. */
    method Dispatch(conn: ConnId, addr: Addr, current: Option<string>, payload: Json)
      returns (next: Option<string>, raised: bool)
      requires payload.JObj?
      modifies this
      ensures Step(Abs(), next, raised) == Respond(old(Abs()), conn, addr, current, payload)
    {
      var action := Get(payload, "action", JNull);
      next, raised := current, false;
      if action == JStr("register") {
        var ok, msg := Register(StrField(payload, "username"), StrField(payload, "password"));
        raised := SendAll(conn, StatusReply(ok, msg));
      } else if action == JStr("login") {
        var username := StrField(payload, "username");
        if IsContainer(Get(payload, "username", JNull)) {
          raised := true;
        } else if PasswordMatches(users, username, StrField(payload, "password")) {
          var session := Session(conn, addr, Get(payload, "tcp_port", JNull), Get(payload, "udp_port", JNull));
          if username.value !in clients {
            order := order + [username.value];
          }
          clients := clients[username.value := session];
          next := username;
          raised := SendAll(conn, StatusReply(true, "Logged in"));
        } else {
          raised := SendAll(conn, StatusReply(false, "Invalid credentials"));
        }
      } else if action == JStr("list_users") {
        var names := Except(order, current);
        raised := SendAll(conn, UserListReply(names));
      } else if action == JStr("connect_to_peer") {
        var target := StrField(payload, "target_username");
        if IsContainer(Get(payload, "target_username", JNull)) {
          raised := true;
        } else if target.Some? && target.value in clients && current.Some? && current.value in clients {
          var me, peer := clients[current.value], clients[target.value];
          raised := SendAll(me.sock, PeerInfo(target.value, peer));
          if !raised {
            raised := SendAll(peer.sock, PeerInfo(current.value, me));
          }
        } else {
          raised := SendAll(conn, NotFoundReply(Get(payload, "target_username", JNull)));
        }
      }
    }

    /**
     * The `for msg in messages` loop over the pieces of one chunk: skip blank pieces and
     * invalid JSON, dispatch the rest, and stop at the first exception.
     */
    method HandlePieces(conn: ConnId, addr: Addr, current: Option<string>, pieces: seq<string>,
                        parse: string -> Option<Json>)
      returns (next: Option<string>, raised: bool)
      modifies this
      ensures Step(Abs(), next, raised) == Rendezvous.HandlePieces(old(Abs()), conn, addr, current, pieces, parse)
    {
      next, raised := current, false;
      var j := 0;
      while j < |pieces| && !raised
        invariant 0 <= j <= |pieces|
        invariant !raised ==> Rendezvous.HandlePieces(Abs(), conn, addr, next, pieces[j..], parse)
                              == Rendezvous.HandlePieces(old(Abs()), conn, addr, current, pieces, parse)
        invariant raised ==> Step(Abs(), next, true) == Rendezvous.HandlePieces(old(Abs()), conn, addr, current, pieces, parse)
      {
        var msg := pieces[j];
        assert pieces[j..][0] == msg && pieces[j..][1..] == pieces[j + 1..];
        if Strip(msg) != [] {
          var parsed := parse(msg);
          if parsed.Some? {
            if !parsed.value.JObj? {
              raised := true;
            } else {
              next, raised := Dispatch(conn, addr, next, parsed.value);
            }
          }
        }
        j := j + 1;
      }
    }

    /** The `finally` block: forget a non-empty `current_user` still in `clients`, close `conn`. */
    method Disconnect(conn: ConnId, current: Option<string>)
      modifies this
      ensures Abs() == Rendezvous.Disconnect(old(Abs()), conn, current)
    {
      if current.Some? && current.value != "" && current.value in clients {
        clients := clients - {current.value};
        order := Except(order, current);
      }
      closed := closed + {conn};
    }

    /**
     * `handle_client(conn, addr)` over the chunks `recv` delivers: split each chunk on
     * "\n" and handle its pieces, stop at end of stream, at bytes that are not UTF-8 or at
     * the first exception, then run the `finally` block.
     */
    method HandleClient(conn: ConnId, addr: Addr, chunks: seq<Chunk>, parse: string -> Option<Json>)
      modifies this
      ensures Abs() == Rendezvous.HandleClient(old(Abs()), conn, addr, None, chunks, parse)
      ensures conn in closed
      ensures old(Valid(Abs())) ==> Valid(Abs())
    {
      ghost var start := Abs();
      var current: Option<string> := None;
      var raised := false;
      var rest := chunks;
      while rest != [] && rest[0].Data? && rest[0].text != [] && !raised
        invariant !raised ==> Rendezvous.HandleClient(Abs(), conn, addr, current, rest, parse)
                              == Rendezvous.HandleClient(start, conn, addr, None, chunks, parse)
        invariant raised ==> Rendezvous.Disconnect(Abs(), conn, current)
                             == Rendezvous.HandleClient(start, conn, addr, None, chunks, parse)
        decreases |rest|
      {
        RendezvousFacts.HandleClientUnfold(Abs(), conn, addr, current, rest, parse);
        current, raised := HandlePieces(conn, addr, current, Split(rest[0].text, '\n'), parse);
        rest := rest[1..];
      }
      Disconnect(conn, current);
      if Valid(start) {
        RendezvousFacts.HandleClientFacts(start, conn, addr, None, chunks, parse);
      }
    }
  }
}
