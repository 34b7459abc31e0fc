/**
 * The chat client's side of the protocol as values: the requests it sends, how it reads
 * each reply, and what its two line-reading loops do with the lines they cut from a stream.
 * The client speaks the "type"-keyed protocol, which is not the one the server of
 * `Rendezvous` answers; the two sides are modelled separately.
 */
module ClientProtocol {
  import opened Wrappers
  import opened JsonText
  import opened Framing

  // ---------------------------------------------------------------- requests

  function RegisterRequest(username: string, password: string): Json {
    JObj([Member("type", JStr("REGISTER")), Member("username", JStr(username)), Member("password", JStr(password))])
  }

  function LoginRequest(username: string, password: string): Json {
    JObj([Member("type", JStr("LOGIN")), Member("username", JStr(username)), Member("password", JStr(password))])
  }

  /** `self.username` as JSON: `None` is `null`. */
  function NameValue(username: Option<string>): Json {
    if username.Some? then JStr(username.value) else JNull
  }

  function PresenceRequest(username: string, listenPort: Json): Json {
    JObj([Member("type", JStr("UPDATE_PRESENCE")), Member("username", JStr(username)), Member("listen_port", listenPort)])
  }

  function PeerRequest(target: string, from: Option<string>): Json {
    JObj([Member("type", JStr("REQUEST_P2P")), Member("to", JStr(target)), Member("from", NameValue(from))])
  }

  function ChatMessage(from: Option<string>, content: string): Json {
    JObj([Member("type", JStr("P2P_MESSAGE")), Member("from", NameValue(from)), Member("content", JStr(content))])
  }

  function RelayRequest(target: string, from: Option<string>, content: string): Json {
    JObj([Member("type", JStr("RELAY")), Member("to", JStr(target)), Member("from", NameValue(from)),
          Member("content", JStr(content))])
  }

  function UsersRequest(): Json {
    JObj([Member("type", JStr("GET_USERS"))])
  }

  // ---------------------------------------------------------------- replies

  /**
   * What `receive_json` returns when `chunks` are waiting: the first line of the stream,
   * decoded; None when the stream ends first or the line is not UTF-8 JSON.
   */
  function ReceiveResult(chunks: seq<seq<byte>>, decode: seq<byte> -> Decoded): (r: Option<Json>)
    ensures r.Some? <==> ReadLine([], chunks).line.Some? && decode(ReadLine([], chunks).line.value).Value?
    ensures r.Some? ==> decode(ReadLine([], chunks).line.value) == Value(r.value)
  {
    match ReadLine([], chunks).line
    case None => None
    case Some(line) => if decode(line).Value? then Some(decode(line).v) else None
  }

  /** `response and response.get("type") == kind`, for a response that is an object. */
  predicate Answers(response: Option<Json>, kind: string) {
    response.Some? && response.value.JObj? && Truthy(response.value)
    && Get(response.value, "type", JNull) == JStr(kind)
  }

  /** `response and response.get(...)` raises: the response is true but has no `get`. */
  predicate NoGet(response: Option<Json>) {
    response.Some? && Truthy(response.value) && !response.value.JObj?
  }

  /** The pair `register` returns once the request was sent. */
  function RegisterOutcome(response: Option<Json>): (r: Outcome<(Json, Json)>)
    ensures r.Raised? <==> NoGet(response)
    ensures Answers(response, "REGISTER_RES") ==>
      r == Returned((Get(response.value, "ok", JBool(false)), Get(response.value, "reason", JStr("Error desconocido"))))
    ensures !Answers(response, "REGISTER_RES") && !NoGet(response) ==>
      r == Returned((JBool(false), JStr("No se recibió respuesta")))
  {
    match response
    case None => Returned((JBool(false), JStr("No se recibió respuesta")))
    case Some(v) =>
      if !Truthy(v) then Returned((JBool(false), JStr("No se recibió respuesta")))
      else if !v.JObj? then Raised
      else if Get(v, "type", JNull) == JStr("REGISTER_RES") then
        Returned((Get(v, "ok", JBool(false)), Get(v, "reason", JStr("Error desconocido"))))
      else Returned((JBool(false), JStr("No se recibió respuesta")))
  }

  /** Whether `login` accepts a reply: only a `LOGIN_RES` whose `ok` is true. */
  function LoginOutcome(response: Option<Json>): (r: Outcome<bool>)
    ensures r.Raised? <==> NoGet(response)
    ensures r == Returned(true) <==> Answers(response, "LOGIN_RES") && Truthy(Get(response.value, "ok", JBool(false)))
  {
    match response
    case None => Returned(false)
    case Some(v) =>
      if !Truthy(v) then Returned(false)
      else if !v.JObj? then Raised
      else Returned(Get(v, "type", JNull) == JStr("LOGIN_RES") && Truthy(Get(v, "ok", JBool(false))))
  }

  /**
   * The checks of `send_p2p_message` on the server's reply: the peer's (ip, port) to
   * connect to, None when a check fails, Raised when `.get` meets a value that is not an
   * object (the reply itself, or its "peer").
   */
  function PeerAddress(response: Option<Json>): (r: Outcome<Option<(Json, Json)>>)
    ensures r.Returned? && r.value.Some? <==>
      && Answers(response, "P2P_INFO") && Truthy(Get(response.value, "ok", JBool(false)))
      && var peer := Get(response.value, "peer", JObj([]));
         peer.JObj? && Truthy(Get(peer, "ip", JNull)) && Truthy(Get(peer, "port", JNull))
    ensures r.Returned? && r.value.Some? ==>
      var peer := Get(response.value, "peer", JObj([]));
      r.value.value == (Get(peer, "ip", JNull), Get(peer, "port", JNull))
    ensures r.Raised? <==>
      || NoGet(response)
      || (&& Answers(response, "P2P_INFO") && Truthy(Get(response.value, "ok", JBool(false)))
          && !Get(response.value, "peer", JObj([])).JObj?)
  {
    match response
    case None => Returned(None)
    case Some(v) =>
      if !Truthy(v) then Returned(None)
      else if !v.JObj? then Raised
      else if Get(v, "type", JNull) != JStr("P2P_INFO") then Returned(None)
      else if !Truthy(Get(v, "ok", JBool(false))) then Returned(None)
      else
        var peer := Get(v, "peer", JObj([]));
        if !peer.JObj? then Raised
        else
          var ip, port := Get(peer, "ip", JNull), Get(peer, "port", JNull);
          if !Truthy(ip) || !Truthy(port) then Returned(None)
          else Returned(Some((ip, port)))
  }

  /** What `get_users` returns for a reply: its `users` for a `USER_LIST`, else `[]`. */
  function UsersOutcome(response: Option<Json>): (r: Outcome<Json>)
    ensures r.Raised? <==> NoGet(response)
    ensures Answers(response, "USER_LIST") ==> r == Returned(Get(response.value, "users", JArr([])))
    ensures !Answers(response, "USER_LIST") && !NoGet(response) ==> r == Returned(JArr([]))
  {
    match response
    case None => Returned(JArr([]))
    case Some(v) =>
      if !Truthy(v) then Returned(JArr([]))
      else if !v.JObj? then Raised
      else if Get(v, "type", JNull) == JStr("USER_LIST") then Returned(Get(v, "users", JArr([])))
      else Returned(JArr([]))
  }

  // ---------------------------------------------------------------- the server listener

  /**
   * `handle_server_message(msg)` on `connected_users`: the new value, or None when `msg`
   * is not an object and `msg.get` raises. Only a `USER_LIST` changes it; `RELAY_IN` and
   * `RELAY_ACK` only print.
   */
  function ServerMessage(users: Json, msg: Json): (r: Option<Json>)
    ensures r.None? <==> !msg.JObj?
    ensures r.Some? && Get(msg, "type", JNull) == JStr("USER_LIST") ==> r.value == Get(msg, "users", JArr([]))
    ensures r.Some? && Get(msg, "type", JNull) != JStr("USER_LIST") ==> r.value == users
  {
    if !msg.JObj? then None
    else if Get(msg, "type", JNull) == JStr("USER_LIST") then Some(Get(msg, "users", JArr([])))
    else Some(users)
  }

  /**
   * One line in `listen_server_messages`: invalid JSON is skipped; bytes that are not
   * UTF-8, or a message `handle_server_message` cannot handle, end the loop (None).
   */
  function ServerLine(users: Json, line: seq<byte>, decode: seq<byte> -> Decoded): Option<Json> {
    match decode(line)
    case NotJson => Some(users)
    case NotUtf8 => None
    case Value(msg) => ServerMessage(users, msg)
  }

  /** `connected_users` after the listener has handled `lines`, and whether it stopped. */
  function Listen(users: Json, lines: seq<seq<byte>>, decode: seq<byte> -> Decoded): (Json, bool)
    decreases |lines|
  {
    if lines == [] then (users, false)
    else match ServerLine(users, lines[0], decode)
      case None => (users, true)
      case Some(next) => Listen(next, lines[1..], decode)
  }

  /** Handling more lines after some: a stop is final, otherwise the later lines continue from there. */
  lemma {:induction false} ListenAppend(users: Json, a: seq<seq<byte>>, b: seq<seq<byte>>, decode: seq<byte> -> Decoded)
    ensures Listen(users, a + b, decode)
         == if Listen(users, a, decode).1 then Listen(users, a, decode) else Listen(Listen(users, a, decode).0, b, decode)
    decreases |a|
  {
    if a != [] {
      assert (a + b)[0] == a[0] && (a + b)[1..] == a[1..] + b;
      if ServerLine(users, a[0], decode).Some? {
        ListenAppend(ServerLine(users, a[0], decode).value, a[1..], b, decode);
      }
    } else {
      assert a + b == b;
    }
  }

  /** Handling one more line. */
  lemma ListenSnoc(users: Json, lines: seq<seq<byte>>, line: seq<byte>, decode: seq<byte> -> Decoded)
    ensures var (u, stopped) := Listen(users, lines, decode);
      Listen(users, lines + [line], decode)
        == if stopped then (u, true)
           else match ServerLine(u, line, decode) case None => (u, true) case Some(next) => (next, false)
  {
    ListenAppend(users, lines, [line], decode);
    assert [line][1..] == [];
  }

  /** A line that is not JSON is skipped: taking it out of a batch changes nothing. */
  lemma ListenSkipsNotJson(users: Json, a: seq<seq<byte>>, line: seq<byte>, b: seq<seq<byte>>,
                           decode: seq<byte> -> Decoded)
    requires decode(line).NotJson?
    ensures Listen(users, a + [line] + b, decode) == Listen(users, a + b, decode)
  {
    assert a + [line] + b == a + ([line] + b);
    ListenAppend(users, a, [line] + b, decode);
    ListenAppend(users, a, b, decode);
    assert ([line] + b)[0] == line && ([line] + b)[1..] == b;
  }

  /** Once the listener stops, or once every line has been handled, later lines change nothing. */
  lemma ListenDone(users: Json, lines: seq<seq<byte>>, more: seq<seq<byte>>, decode: seq<byte> -> Decoded)
    requires Listen(users, lines, decode).1 || more == []
    ensures Listen(users, lines + more, decode) == Listen(users, lines, decode)
  {
    ListenAppend(users, lines, more, decode);
    if more == [] {
      assert lines + more == lines;
    }
  }

  /** With every line valid JSON, the listener keeps the `users` of the last `USER_LIST` message. */
  function LastUserList(users: Json, msgs: seq<Json>): Json
    decreases |msgs|
  {
    if msgs == [] then users
    else if msgs[|msgs| - 1].JObj? && Get(msgs[|msgs| - 1], "type", JNull) == JStr("USER_LIST") then
      Get(msgs[|msgs| - 1], "users", JArr([]))
    else LastUserList(users, msgs[..|msgs| - 1])
  }

  /**
   * Frames of objects, read back by a decoder that inverts `json.dumps`, leave
   * `connected_users` equal to the last `USER_LIST`'s users, however the bytes are chunked.
   */
  lemma {:induction false} ListenFrames(users: Json, msgs: seq<Json>, decode: seq<byte> -> Decoded)
    requires forall i :: 0 <= i < |msgs| ==> msgs[i].JObj? && decode(Line(msgs[i])) == Value(msgs[i])
    ensures Listen(users, SplitLines(Frames(msgs)).0, decode) == (LastUserList(users, msgs), false)
    decreases |msgs|
  {
    FramesRoundTrip(msgs);
    ListenLines(users, msgs, decode);
  }

  lemma {:induction false} ListenLines(users: Json, msgs: seq<Json>, decode: seq<byte> -> Decoded)
    requires forall i :: 0 <= i < |msgs| ==> msgs[i].JObj? && decode(Line(msgs[i])) == Value(msgs[i])
    ensures Listen(users, seq(|msgs|, i requires 0 <= i < |msgs| => Line(msgs[i])), decode) == (LastUserList(users, msgs), false)
    decreases |msgs|
  {
    var lines := seq(|msgs|, i requires 0 <= i < |msgs| => Line(msgs[i]));
    if msgs != [] {
      var init := msgs[..|msgs| - 1];
      var initLines := seq(|init|, i requires 0 <= i < |init| => Line(init[i]));
      assert lines == initLines + [Line(msgs[|msgs| - 1])];
      ListenLines(users, init, decode);
      ListenAppend(users, initLines, [Line(msgs[|msgs| - 1])], decode);
      assert [Line(msgs[|msgs| - 1])][1..] == [];
    }
  }

  // ---------------------------------------------------------------- the peer listener

  /** A chat line `handle_p2p_connection` shows: who sent it and what it says. */
  datatype Chat = Chat(sender: Json, content: Json)

  /** An object whose "type" is "P2P_MESSAGE". */
  predicate IsChatMessage(m: Json) {
    m.JObj? && Get(m, "type", JNull) == JStr("P2P_MESSAGE")
  }

  /** The chat line one message amounts to, if any: a chat message's sender and content. */
  function MessageChats(m: Json): seq<Chat> {
    if IsChatMessage(m) then [Chat(Get(m, "from", JStr("Desconocido")), Get(m, "content", JStr("")))] else []
  }

  /** The chat lines a sequence of messages amounts to, in order. */
  function Chats(msgs: seq<Json>): seq<Chat>
    decreases |msgs|
  {
    if msgs == [] then [] else Chats(msgs[..|msgs| - 1]) + MessageChats(msgs[|msgs| - 1])
  }

  /**
   * One line in `handle_p2p_connection`: invalid JSON is skipped, a `P2P_MESSAGE` is shown
   * (sender "Desconocido" and content "" when absent), any other object is ignored; bytes
   * that are not UTF-8 or a value that is not an object end the loop (None).
   */
  function PeerLine(shown: seq<Chat>, line: seq<byte>, decode: seq<byte> -> Decoded): (r: Option<seq<Chat>>)
    ensures r.None? <==> decode(line).NotUtf8? || (decode(line).Value? && !decode(line).v.JObj?)
    ensures decode(line).NotJson? ==> r == Some(shown)
    ensures decode(line).Value? && decode(line).v.JObj? ==> r == Some(shown + MessageChats(decode(line).v))
  {
    match decode(line)
    case NotJson => Some(shown)
    case NotUtf8 => None
    case Value(msg) =>
      if !msg.JObj? then None
      else if Get(msg, "type", JNull) == JStr("P2P_MESSAGE") then
        Some(shown + [Chat(Get(msg, "from", JStr("Desconocido")), Get(msg, "content", JStr("")))])
      else assert shown + [] == shown; Some(shown)
  }

  /** The chat lines shown after `lines`, and whether the connection loop stopped. */
  function PeerLines(shown: seq<Chat>, lines: seq<seq<byte>>, decode: seq<byte> -> Decoded): (r: (seq<Chat>, bool))
    ensures shown <= r.0 && |r.0| <= |shown| + |lines|
    decreases |lines|
  {
    if lines == [] then (shown, false)
    else match PeerLine(shown, lines[0], decode)
      case None => (shown, true)
      case Some(next) => PeerLines(next, lines[1..], decode)
  }

  /**
   * Frames of objects, read back by a decoder that inverts `json.dumps`, show exactly the
   * chat messages among them, in order, however the bytes are chunked.
   */
  lemma {:induction false} PeerFrames(msgs: seq<Json>, decode: seq<byte> -> Decoded)
    requires forall i :: 0 <= i < |msgs| ==> msgs[i].JObj? && decode(Line(msgs[i])) == Value(msgs[i])
    ensures PeerLines([], SplitLines(Frames(msgs)).0, decode) == (Chats(msgs), false)
  {
    FramesRoundTrip(msgs);
    PeerLinesOfMessages([], SplitLines(Frames(msgs)).0, msgs, decode);
    assert [] + Chats(msgs) == Chats(msgs);
  }

  /** Lines that decode to objects show exactly the chat messages among those objects. */
  lemma {:induction false} PeerLinesOfMessages(shown: seq<Chat>, lines: seq<seq<byte>>, msgs: seq<Json>,
                                               decode: seq<byte> -> Decoded)
    requires |lines| == |msgs|
    requires forall i :: 0 <= i < |msgs| ==> msgs[i].JObj? && decode(lines[i]) == Value(msgs[i])
    ensures PeerLines(shown, lines, decode) == (shown + Chats(msgs), false)
    decreases |msgs|
  {
    if msgs == [] {
      assert shown + [] == shown;
    } else {
      var n := |msgs| - 1;
      var before := shown + Chats(msgs[..n]);
      assert PeerLines(shown, lines[..n], decode) == (before, false) by {
        PeerLinesOfMessages(shown, lines[..n], msgs[..n], decode);
      }
      PeerLinesLast(shown, lines, before, msgs[n], decode);
      assert before + MessageChats(msgs[n]) == shown + Chats(msgs);
    }
  }

  /** The last line of a batch, decoding to an object, adds its chat line to what the earlier ones showed. */
  lemma PeerLinesLast(shown: seq<Chat>, lines: seq<seq<byte>>, before: seq<Chat>, m: Json, decode: seq<byte> -> Decoded)
    requires lines != [] && PeerLines(shown, lines[..|lines| - 1], decode) == (before, false)
    requires m.JObj? && decode(lines[|lines| - 1]) == Value(m)
    ensures PeerLines(shown, lines, decode) == (before + MessageChats(m), false)
  {
    var n := |lines| - 1;
    assert lines == lines[..n] + [lines[n]];
    PeerLinesSnoc(shown, lines[..n], lines[n], decode);
  }

  /** A line that is not JSON is skipped: taking it out of a batch changes nothing. */
  lemma PeerLinesSkipNotJson(shown: seq<Chat>, a: seq<seq<byte>>, line: seq<byte>, b: seq<seq<byte>>,
                             decode: seq<byte> -> Decoded)
    requires decode(line).NotJson?
    ensures PeerLines(shown, a + [line] + b, decode) == PeerLines(shown, a + b, decode)
  {
    assert a + [line] + b == a + ([line] + b);
    PeerLinesAppend(shown, a, [line] + b, decode);
    PeerLinesAppend(shown, a, b, decode);
    assert ([line] + b)[0] == line && ([line] + b)[1..] == b;
  }

  lemma {:induction false} PeerLinesAppend(shown: seq<Chat>, a: seq<seq<byte>>, b: seq<seq<byte>>, decode: seq<byte> -> Decoded)
    ensures PeerLines(shown, a + b, decode)
         == if PeerLines(shown, a, decode).1 then PeerLines(shown, a, decode) else PeerLines(PeerLines(shown, a, decode).0, b, decode)
    decreases |a|
  {
    if a != [] {
      assert (a + b)[0] == a[0] && (a + b)[1..] == a[1..] + b;
      if PeerLine(shown, a[0], decode).Some? {
        PeerLinesAppend(PeerLine(shown, a[0], decode).value, a[1..], b, decode);
      }
    } else {
      assert a + b == b;
    }
  }

  lemma PeerLinesSnoc(shown: seq<Chat>, lines: seq<seq<byte>>, line: seq<byte>, decode: seq<byte> -> Decoded)
    ensures var (c, stopped) := PeerLines(shown, lines, decode);
      PeerLines(shown, lines + [line], decode)
        == if stopped then (c, true)
           else match PeerLine(c, line, decode) case None => (c, true) case Some(next) => (next, false)
  {
    PeerLinesAppend(shown, lines, [line], decode);
    assert [line][1..] == [];
  }

  lemma PeerLinesDone(shown: seq<Chat>, lines: seq<seq<byte>>, more: seq<seq<byte>>, decode: seq<byte> -> Decoded)
    requires PeerLines(shown, lines, decode).1 || more == []
    ensures PeerLines(shown, lines + more, decode) == PeerLines(shown, lines, decode)
  {
    PeerLinesAppend(shown, lines, more, decode);
    if more == [] {
      assert lines + more == lines;
    }
  }

  /** The fields `handle_p2p_connection` reads from a chat message built by `send_p2p_message`. */
  lemma ChatMessageFields(from: Option<string>, content: string)
    ensures var m := ChatMessage(from, content);
      && Get(m, "type", JNull) == JStr("P2P_MESSAGE")
      && Get(m, "from", JStr("Desconocido")) == NameValue(from)
      && Get(m, "content", JStr("")) == JStr(content)
  {
    var ms := ChatMessage(from, content).members;
    assert ms[..2] == [ms[0], ms[1]] && ms[..2][..1] == [ms[0]];
    assert Lookup(ms[..2], "from") == Some(NameValue(from));
    assert Lookup(ms[..2][..1], "type") == Some(JStr("P2P_MESSAGE"));
  }

  /** A peer's chat message, framed and read back, is shown once with its sender and content. */
  lemma PeerShowsChat(from: Option<string>, content: string, decode: seq<byte> -> Decoded)
    requires decode(Line(ChatMessage(from, content))) == Value(ChatMessage(from, content))
    ensures PeerLines([], SplitLines(Frame(ChatMessage(from, content))).0, decode)
         == ([Chat(NameValue(from), JStr(content))], false)
  {
    var m := ChatMessage(from, content);
    assert SplitLines(Frame(m)).0 == [Line(m)] by {
      SplitLinesStep(Line(m), []);
    }
    var chat := Chat(NameValue(from), JStr(content));
    assert PeerLine([], Line(m), decode) == Some([chat]) by {
      ChatMessageFields(from, content);
      var empty: seq<Chat> := [];
      assert empty + [chat] == [chat];
    }
    assert [Line(m)][1..] == [];
    assert PeerLines([chat], [], decode) == ([chat], false);
  }
}
