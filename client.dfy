/**
 * The chat client object: its connection to the server, who it is logged in as, and the
 * user list the listener keeps. The socket to the server is modelled by the bytes the
 * client has written to it and the chunks still waiting to be read from it; whether
 * `sendall` succeeds and whether a peer accepts a connection are inputs.
 */
module Client {
  import opened Wrappers
  import opened JsonText
  import opened Text
  import opened Framing
  import opened ClientProtocol

  class P2PClient {
    var hasSocket: bool               // `server_sock` is set
    var linkUp: bool                  // `sendall` on `server_sock` succeeds
    var serverOut: seq<byte>          // everything written to the server
    var serverIn: seq<seq<byte>>      // what `recv` will still return, chunk by chunk
    var p2pPort: Json                 // `p2p_port`, `null` until the listener is bound
    var username: Option<string>
    var connectedUsers: Json

    /** The fields a method may leave alone; compared with `old` to say nothing else changed. */
    function Settings(): (bool, bool, Json, Option<string>, Json)
      reads this
    {
      (hasSocket, linkUp, p2pPort, username, connectedUsers)
    }

    /** Sending to the server succeeds. */
    predicate Online()
      reads this
    {
      hasSocket && linkUp
    }

    /** `P2PClient()`, with `incoming` the chunks the server will deliver once connected. */
    constructor (incoming: seq<seq<byte>>)
      ensures !hasSocket && serverOut == [] && serverIn == incoming
      ensures p2pPort == JNull && username == None && connectedUsers == JArr([])
    {
      hasSocket, linkUp := false, false;
      serverOut, serverIn := [], incoming;
      p2pPort, username, connectedUsers := JNull, None, JArr([]);
    }

    /** `connect_to_server`: the socket object exists from here on, connected or not. */
    method ConnectToServer(reachable: bool) returns (ok: bool)
      modifies this
      ensures ok == reachable && hasSocket && linkUp == reachable
      ensures serverOut == old(serverOut) && serverIn == old(serverIn)
      ensures p2pPort == old(p2pPort) && username == old(username) && connectedUsers == old(connectedUsers)
    {
      hasSocket := true;
      linkUp := reachable;
      ok := reachable;
    }

    /** `send_json(self.server_sock, data)`: one frame goes out, or False when `sendall` raises. */
    method SendJson(data: Json) returns (ok: bool)
      modifies this
      ensures ok == old(Online())
      ensures serverOut == if ok then old(serverOut) + Frame(data) else old(serverOut)
      ensures serverIn == old(serverIn) && Settings() == old(Settings())
    {
      if hasSocket && linkUp {
        serverOut := serverOut + Frame(data);
        ok := true;
      } else {
        ok := false;
      }
    }

    /**
     * `receive_json(self.server_sock)`: read chunks until the buffer holds a newline and
     * decode the first line; whatever followed it in the buffer is dropped.
     */
    method ReceiveJson(decode: seq<byte> -> Decoded) returns (response: Option<Json>)
      modifies this
      ensures response == ReceiveResult(old(serverIn), decode)
      ensures serverIn == ReadLine([], old(serverIn)).unread
      ensures serverOut == old(serverOut) && Settings() == old(Settings())
    {
      var buffer: seq<byte> := [];
      while true
        invariant NL !in buffer
        invariant ReadLine(buffer, serverIn) == ReadLine([], old(serverIn))
        invariant serverOut == old(serverOut) && Settings() == old(Settings())
        decreases |serverIn|
      {
        if serverIn == [] || serverIn[0] == [] {
          return None;
        }
        var data := serverIn[0];
        serverIn := serverIn[1..];
        buffer := buffer + data;
        if NL in buffer {
          var k := IndexOf(buffer, NL);
          var line := buffer[..k];
          buffer := buffer[k + 1..];
          var decoded := decode(line);
          return if decoded.Value? then Some(decoded.v) else None;
        }
      }
    }

    /** `register(username, password)`: Raised when a true reply is not an object. */
    method Register(user: string, password: string, decode: seq<byte> -> Decoded)
      returns (result: Outcome<(Json, Json)>)
      modifies this
      ensures !old(hasSocket) ==> result == Returned((JBool(false), JStr("No conectado al servidor")))
      ensures old(hasSocket) && !old(linkUp) ==> result == Returned((JBool(false), JStr("Error enviando datos")))
      ensures !old(Online()) ==> serverOut == old(serverOut) && serverIn == old(serverIn)
      ensures old(Online()) ==>
        && serverOut == old(serverOut) + Frame(RegisterRequest(user, password))
        && serverIn == ReadLine([], old(serverIn)).unread
        && result == RegisterOutcome(ReceiveResult(old(serverIn), decode))
      ensures Settings() == old(Settings())
    {
      if !hasSocket {
        return Returned((JBool(false), JStr("No conectado al servidor")));
      }
      var sent := SendJson(RegisterRequest(user, password));
      if !sent {
        return Returned((JBool(false), JStr("Error enviando datos")));
      }
      var response := ReceiveJson(decode);
      if response.Some? && Truthy(response.value) {
        if !response.value.JObj? {
          return Raised;
        }
        if Get(response.value, "type", JNull) == JStr("REGISTER_RES") {
          return Returned((Get(response.value, "ok", JBool(false)), Get(response.value, "reason", JStr("Error desconocido"))));
        }
      }
      return Returned((JBool(false), JStr("No se recibió respuesta")));
    }

    /** `login(username, password)`: `self.username` is set only by an accepted `LOGIN_RES`. */
    method Login(user: string, password: string, decode: seq<byte> -> Decoded) returns (result: Outcome<bool>)
      modifies this
      ensures !old(Online()) ==> result == Returned(false) && serverOut == old(serverOut) && serverIn == old(serverIn)
      ensures old(Online()) ==>
        && serverOut == old(serverOut) + Frame(LoginRequest(user, password))
        && serverIn == ReadLine([], old(serverIn)).unread
        && result == LoginOutcome(ReceiveResult(old(serverIn), decode))
      ensures username == if result == Returned(true) then Some(user) else old(username)
      ensures hasSocket == old(hasSocket) && linkUp == old(linkUp) && p2pPort == old(p2pPort)
      ensures connectedUsers == old(connectedUsers)
    {
      if !hasSocket {
        return Returned(false);
      }
      var sent := SendJson(LoginRequest(user, password));
      if !sent {
        return Returned(false);
      }
      var response := ReceiveJson(decode);
      if response.Some? && Truthy(response.value) {
        if !response.value.JObj? {
          return Raised;
        }
        if Get(response.value, "type", JNull) == JStr("LOGIN_RES") && Truthy(Get(response.value, "ok", JBool(false))) {
          username := Some(user);
          return Returned(true);
        }
      }
      return Returned(false);
    }

    /** `update_presence`: announce the P2P port, once there is a socket and a non-empty user name. */
    method UpdatePresence()
      modifies this
      ensures serverOut == if old(hasSocket) && old(username).Some? && old(username).value != ""
                           then (if old(linkUp) then old(serverOut) + Frame(PresenceRequest(old(username).value, old(p2pPort))) else old(serverOut))
                           else old(serverOut)
      ensures serverIn == old(serverIn) && Settings() == old(Settings())
    {
      if !hasSocket || username.None? || username.value == "" {
        return;
      }
      var _ := SendJson(PresenceRequest(username.value, p2pPort));
    }

    /**
     * `setup_p2p_listener`: `bound` is the port the operating system chose, or None when
     * creating or binding the socket raises; `listens` is whether `listen(10)` then succeeds.
     * Any of these exceptions makes it return False, keeping whatever was assigned before.
     */
    method SetupP2PListener(bound: Option<nat>, listens: bool) returns (ok: bool)
      modifies this
      ensures ok <==> bound.Some? && listens
      ensures p2pPort == if bound.Some? then JInt(bound.value) else old(p2pPort)
      ensures serverOut == if ok && hasSocket && linkUp && username.Some? && username.value != ""
                           then old(serverOut) + Frame(PresenceRequest(username.value, JInt(bound.value)))
                           else old(serverOut)
      ensures serverIn == old(serverIn) && hasSocket == old(hasSocket) && linkUp == old(linkUp)
      ensures username == old(username) && connectedUsers == old(connectedUsers)
    {
      if bound.None? {
        return false;
      }
      p2pPort := JInt(bound.value);
      if !listens {
        return false;
      }
      UpdatePresence();
      ok := true;
    }

    /**
     * `send_p2p_message(target, message)`: ask the server for the peer, check its reply,
     * connect (whether that succeeds is `connects`) and send one chat frame (which the peer
     * gets when `peerWritable`). Once connected the result is true whatever the send did;
     * nothing is ever sent through the server instead.
     */
    method SendP2PMessage(target: string, message: string, decode: seq<byte> -> Decoded, connects: bool, peerWritable: bool)
      returns (result: Outcome<bool>, peerBytes: seq<byte>)
      modifies this
      ensures !old(Online()) ==> result == Returned(false) && serverOut == old(serverOut) && serverIn == old(serverIn)
      ensures old(Online()) ==>
        && serverOut == old(serverOut) + Frame(PeerRequest(target, old(username)))
        && serverIn == ReadLine([], old(serverIn)).unread
        && var address := PeerAddress(ReceiveResult(old(serverIn), decode));
           result == if address.Raised? then Raised else Returned(address.value.Some? && connects)
      ensures peerBytes == if result == Returned(true) && peerWritable then Frame(ChatMessage(username, message)) else []
      ensures Settings() == old(Settings())
    {
      peerBytes := [];
      var sent := SendJson(PeerRequest(target, username));
      if !sent {
        return Returned(false), [];
      }
      var response := ReceiveJson(decode);
      if response.None? || !Truthy(response.value) {
        return Returned(false), [];
      }
      if !response.value.JObj? {
        return Raised, [];
      }
      if Get(response.value, "type", JNull) != JStr("P2P_INFO") {
        return Returned(false), [];
      }
      if !Truthy(Get(response.value, "ok", JBool(false))) {
        return Returned(false), [];
      }
      var peer := Get(response.value, "peer", JObj([]));
      if !peer.JObj? {
        return Raised, [];
      }
      var ip, port := Get(peer, "ip", JNull), Get(peer, "port", JNull);
      if !Truthy(ip) || !Truthy(port) {
        return Returned(false), [];
      }
      if !connects {
        return Returned(false), [];
      }
      if peerWritable {
        peerBytes := Frame(ChatMessage(username, message));
      }
      result := Returned(true);
    }

    /** `send_relay_message`: one `RELAY` frame to the server. */
    method SendRelayMessage(target: string, message: string) returns (ok: bool)
      modifies this
      ensures ok == old(Online())
      ensures serverOut == if ok then old(serverOut) + Frame(RelayRequest(target, username, message)) else old(serverOut)
      ensures serverIn == old(serverIn) && Settings() == old(Settings())
    {
      ok := SendJson(RelayRequest(target, username, message));
    }

    /** `get_users`: the `users` of a `USER_LIST` reply, `[]` otherwise. */
    method GetUsers(decode: seq<byte> -> Decoded) returns (result: Outcome<Json>)
      modifies this
      ensures !old(Online()) ==> result == Returned(JArr([])) && serverOut == old(serverOut) && serverIn == old(serverIn)
      ensures old(Online()) ==>
        && serverOut == old(serverOut) + Frame(UsersRequest())
        && serverIn == ReadLine([], old(serverIn)).unread
        && result == UsersOutcome(ReceiveResult(old(serverIn), decode))
      ensures Settings() == old(Settings())
    {
      var sent := SendJson(UsersRequest());
      if !sent {
        return Returned(JArr([]));
      }
      var response := ReceiveJson(decode);
      if response.Some? && Truthy(response.value) {
        if !response.value.JObj? {
          return Raised;
        }
        if Get(response.value, "type", JNull) == JStr("USER_LIST") {
          return Returned(Get(response.value, "users", JArr([])));
        }
      }
      return Returned(JArr([]));
    }

    /** `handle_server_message(msg)`; `raised` when `msg` has no `get`. */
    method HandleServerMessage(msg: Json) returns (raised: bool)
      modifies this
      ensures ServerMessage(old(connectedUsers), msg) == if raised then None else Some(connectedUsers)
      ensures raised ==> connectedUsers == old(connectedUsers)
      ensures serverOut == old(serverOut) && serverIn == old(serverIn)
      ensures hasSocket == old(hasSocket) && linkUp == old(linkUp) && p2pPort == old(p2pPort) && username == old(username)
    {
      if !msg.JObj? {
        return true;
      }
      var kind := Get(msg, "type", JNull);
      if kind == JStr("USER_LIST") {
        connectedUsers := Get(msg, "users", JArr([]));
      }
      raised := false;
    }

    /**
     * The inner `while b"\n" in buffer` loop of `listen_server_messages`: handle each complete
     * line of `buffer`, and stop at bytes that are not UTF-8 or at a message that is not an object.
     * `users0` and `lines0` are the user list before the loop began and the lines handled so far.
     */
    method HandleBufferedLines(buffer0: seq<byte>, decode: seq<byte> -> Decoded,
                               ghost users0: Json, ghost lines0: seq<seq<byte>>, ghost tail: seq<byte>)
      returns (buffer: seq<byte>, stopped: bool, ghost lines: seq<seq<byte>>)
      requires NoNewlines(lines0) && Listen(users0, lines0, decode) == (connectedUsers, false)
      modifies this
      ensures NoNewlines(lines) && JoinLines(lines0) + buffer0 + tail == JoinLines(lines) + buffer + tail
      ensures Listen(users0, lines, decode) == (connectedUsers, stopped)
      ensures !stopped ==> NL !in buffer
      ensures serverOut == old(serverOut) && serverIn == old(serverIn)
      ensures hasSocket == old(hasSocket) && linkUp == old(linkUp) && p2pPort == old(p2pPort) && username == old(username)
    {
      buffer, stopped, lines := buffer0, false, lines0;
      while NL in buffer && !stopped
        invariant NoNewlines(lines) && JoinLines(lines0) + buffer0 + tail == JoinLines(lines) + buffer + tail
        invariant Listen(users0, lines, decode) == (connectedUsers, stopped)
        invariant serverOut == old(serverOut) && serverIn == old(serverIn)
        invariant hasSocket == old(hasSocket) && linkUp == old(linkUp) && p2pPort == old(p2pPort) && username == old(username)
        decreases |buffer|
      {
        var k := IndexOf(buffer, NL);
        var line := buffer[..k];
        CutLine(lines, buffer, k, tail);
        ListenSnoc(users0, lines, line, decode);
        buffer := buffer[k + 1..];
        lines := lines + [line];
        var decoded := decode(line);
        if decoded.NotUtf8? {
          stopped := true;
        } else if decoded.Value? {
          stopped := HandleServerMessage(decoded.v);
        }
      }
    }

    /**
     * `listen_server_messages`: keep a buffer across chunks and handle every complete line.
     * The resulting user list depends only on the bytes received, not on how they were
     * cut into chunks.
     */
    method ListenServerMessages(decode: seq<byte> -> Decoded)
      modifies this
      ensures connectedUsers == Listen(old(connectedUsers), SplitLines(Received(old(serverIn))).0, decode).0
      ensures serverOut == old(serverOut)
      ensures hasSocket == old(hasSocket) && linkUp == old(linkUp) && p2pPort == old(p2pPort) && username == old(username)
    {
      ghost var lines: seq<seq<byte>> := [];
      var buffer: seq<byte> := [];
      var stopped := false;
      while !stopped
        invariant !stopped ==> NL !in buffer
        invariant NoNewlines(lines)
        invariant Received(old(serverIn)) == JoinLines(lines) + buffer + Received(serverIn)
        invariant Listen(old(connectedUsers), lines, decode) == (connectedUsers, stopped)
        invariant serverOut == old(serverOut)
        invariant hasSocket == old(hasSocket) && linkUp == old(linkUp) && p2pPort == old(p2pPort) && username == old(username)
        decreases |serverIn|
      {
        if serverIn == [] || serverIn[0] == [] {
          break;
        }
        TakeChunk(Received(old(serverIn)), lines, buffer, serverIn);
        var data := serverIn[0];
        serverIn := serverIn[1..];
        buffer, stopped, lines := HandleBufferedLines(buffer + data, decode, old(connectedUsers), lines, Received(serverIn));
      }
      LinesTaken(Received(old(serverIn)), lines, buffer, serverIn);
      if stopped {
        ListenDone(old(connectedUsers), lines, SplitLines(buffer + Received(serverIn)).0, decode);
      }
    }

    /**
     * The inner `while b"\n" in buffer` loop of `handle_p2p_connection`: show each chat
     * message among the complete lines of `buffer`, and stop at bytes that are not UTF-8
     * or at a value that is not an object.
     */
    method ShowPeerLines(shown0: seq<Chat>, buffer0: seq<byte>, decode: seq<byte> -> Decoded,
                         ghost lines0: seq<seq<byte>>, ghost tail: seq<byte>)
      returns (shown: seq<Chat>, buffer: seq<byte>, stopped: bool, ghost lines: seq<seq<byte>>)
      requires NoNewlines(lines0) && PeerLines([], lines0, decode) == (shown0, false)
      ensures NoNewlines(lines) && JoinLines(lines0) + buffer0 + tail == JoinLines(lines) + buffer + tail
      ensures PeerLines([], lines, decode) == (shown, stopped)
      ensures !stopped ==> NL !in buffer
    {
      shown, buffer, stopped, lines := shown0, buffer0, false, lines0;
      while NL in buffer && !stopped
        invariant NoNewlines(lines) && JoinLines(lines0) + buffer0 + tail == JoinLines(lines) + buffer + tail
        invariant PeerLines([], lines, decode) == (shown, stopped)
        decreases |buffer|
      {
        var k := IndexOf(buffer, NL);
        var line := buffer[..k];
        CutLine(lines, buffer, k, tail);
        PeerLinesSnoc([], lines, line, decode);
        buffer := buffer[k + 1..];
        lines := lines + [line];
        var decoded := decode(line);
        if decoded.NotUtf8? {
          stopped := true;
        } else if decoded.Value? {
          var msg := decoded.v;
          if !msg.JObj? {
            stopped := true;
          } else if Get(msg, "type", JNull) == JStr("P2P_MESSAGE") {
            shown := shown + [Chat(Get(msg, "from", JStr("Desconocido")), Get(msg, "content", JStr("")))];
          }
        }
      }
    }

    /**
     * `handle_p2p_connection` over the chunks a peer sends: the chat lines it shows,
     * which depend only on the bytes received.
     */
    method HandleP2PConnection(chunks: seq<seq<byte>>, decode: seq<byte> -> Decoded) returns (shown: seq<Chat>)
      ensures shown == PeerLines([], SplitLines(Received(chunks)).0, decode).0
    {
      shown := [];
      ghost var lines: seq<seq<byte>> := [];
      var pending := chunks;
      var buffer: seq<byte> := [];
      var stopped := false;
      while !stopped
        invariant !stopped ==> NL !in buffer
        invariant NoNewlines(lines)
        invariant Received(chunks) == JoinLines(lines) + buffer + Received(pending)
        invariant PeerLines([], lines, decode) == (shown, stopped)
        decreases |pending|
      {
        if pending == [] || pending[0] == [] {
          break;
        }
        TakeChunk(Received(chunks), lines, buffer, pending);
        var data := pending[0];
        pending := pending[1..];
        shown, buffer, stopped, lines := ShowPeerLines(shown, buffer + data, decode, lines, Received(pending));
      }
      LinesTaken(Received(chunks), lines, buffer, pending);
      if stopped {
        PeerLinesDone([], lines, SplitLines(buffer + Received(pending)).0, decode);
      }
    }
  }
}
