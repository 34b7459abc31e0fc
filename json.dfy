/**
 * JSON documents as the chat programs build and read them, and `json.dumps` with
 * its default settings (`ensure_ascii=True`, separators `", "` and `": "`).
 * Decoding (`json.loads`) is not defined here: readers receive it as a parameter.
 */
module JsonText {
  import opened Wrappers

  /** A decoded JSON document. Floating-point numbers are not represented. */
  datatype Json =
    | JNull
    | JBool(b: bool)
    | JInt(i: int)
    | JStr(s: string)
    | JArr(items: seq<Json>)
    | JObj(members: seq<Member>)

  /** One `"key": value` pair of an object, in document order. */
  datatype Member = Member(key: string, value: Json)

  /** What a reader gets back from decoding one line of bytes. */
  datatype Decoded =
    | NotUtf8           // `bytes.decode()` raised `UnicodeDecodeError`
    | NotJson           // `json.loads` raised `JSONDecodeError`
    | Value(v: Json)

  /** The value of `key` in a decoded object; the last duplicate wins, as with `json.loads`. */
  function Lookup(members: seq<Member>, key: string): (r: Option<Json>)
    ensures r.Some? <==> exists i :: 0 <= i < |members| && members[i].key == key
    ensures r.Some? ==> exists i :: 0 <= i < |members| && members[i] == Member(key, r.value)
  {
    if members == [] then None
    else if members[|members| - 1].key == key then Some(members[|members| - 1].value)
    else
      var r := Lookup(members[..|members| - 1], key);
      assert forall i :: 0 <= i < |members| - 1 ==> members[..|members| - 1][i] == members[i];
      r
  }

  /** The value found is that of the key's last occurrence: no later member has the key. */
  lemma {:induction false} LookupIsLast(members: seq<Member>, key: string)
    requires Lookup(members, key).Some?
    ensures exists i :: 0 <= i < |members| && members[i] == Member(key, Lookup(members, key).value)
                        && forall j :: i < j < |members| ==> members[j].key != key
  {
    var n := |members| - 1;
    if members[n].key != key {
      var init := members[..n];
      LookupIsLast(init, key);
      var i :| 0 <= i < |init| && init[i] == Member(key, Lookup(init, key).value)
                && forall j :: i < j < |init| ==> init[j].key != key;
      assert members[i] == init[i];
      assert forall j :: i < j < |members| ==> members[j].key != key by {
        forall j | i < j < |members| ensures members[j].key != key {
          if j < n {
            assert members[j] == init[j];
          }
        }
      }
    }
  }

  /** `obj.get(key, default)` on a decoded object (a missing key gives `default`, a `null` gives `JNull`). */
  function Get(obj: Json, key: string, default: Json): Json
    requires obj.JObj?
  {
    match Lookup(obj.members, key)
    case Some(v) => v
    case None => default
  }

  /** Python truthiness of a decoded value: `None`, `False`, `0`, `""`, `[]` and `{}` are false. */
  predicate Truthy(v: Json) {
    match v
    case JNull => false
    case JBool(b) => b
    case JInt(i) => i != 0
    case JStr(s) => s != []
    case JArr(items) => items != []
    case JObj(members) => members != []
  }

  /** Printable ASCII, `' '` to `'~'`: the only characters `json.dumps` emits by default. */
  predicate Printable(s: string) {
    forall i :: 0 <= i < |s| ==> ' ' <= s[i] <= '~'
  }

  function HexDigit(n: nat): (c: char)
    requires n < 16
    ensures ' ' <= c <= '~'
  {
    "0123456789abcdef"[n]
  }

  /** Four lower-case hexadecimal digits, as `'{0:04x}'.format(n)`. */
  function Hex4(n: nat): (r: string)
    requires n < 0x10000
    ensures |r| == 4 && Printable(r)
  {
    [HexDigit(n / 0x1000), HexDigit(n / 0x100 % 16), HexDigit(n / 0x10 % 16), HexDigit(n % 16)]
  }

  /**
   * The escape `json.dumps` writes for one character of a string: the short escapes for
   * quote, backslash, `\n`, `\r`, `\t`, `\b` and `\f`; printable ASCII as itself; every other
   * character as `\uXXXX`, split into a UTF-16 surrogate pair above U+FFFF.
   */
  function EscapeChar(c: char): (r: string)
    ensures r != [] && Printable(r)
    ensures r == [c] <==> ' ' <= c <= '~' && c != '"' && c != '\\'
    ensures r != [c] ==> |r| >= 2 && r[0] == '\\'
  {
    var n := c as int;
    if c == '"' then "\\\""
    else if c == '\\' then "\\\\"
    else if c == '\n' then "\\n"
    else if c == '\r' then "\\r"
    else if c == '\t' then "\\t"
    else if n == 0x08 then "\\b"
    else if n == 0x0C then "\\f"
    else if ' ' <= c <= '~' then [c]
    else if n < 0x10000 then "\\u" + Hex4(n)
    else
      var m := n - 0x10000;
      "\\u" + Hex4(0xD800 + m / 0x400) + "\\u" + Hex4(0xDC00 + m % 0x400)
  }

  function EscapeAll(s: string): (r: string)
    ensures Printable(r)
  {
    if s == [] then [] else EscapeChar(s[0]) + EscapeAll(s[1..])
  }

  /** A JSON string literal. */
  function Quote(s: string): (r: string)
    ensures Printable(r) && |r| >= 2 && r[0] == '"' && r[|r| - 1] == '"'
  {
    "\"" + EscapeAll(s) + "\""
  }

  function DigitsOf(n: nat): (r: string)
    ensures r != [] && forall i :: 0 <= i < |r| ==> '0' <= r[i] <= '9'
  {
    if n < 10 then ["0123456789"[n]] else DigitsOf(n / 10) + ["0123456789"[n % 10]]
  }

  /** `str(i)` for a Python integer. */
  function IntText(i: int): (r: string)
    ensures Printable(r) && r != []
  {
    if i < 0 then "-" + DigitsOf(-i) else DigitsOf(i)
  }

  /** The pieces joined by `", "`, the default item separator. */
  function CommaJoin(pieces: seq<string>): (r: string)
    ensures (forall i :: 0 <= i < |pieces| ==> Printable(pieces[i])) ==> Printable(r)
  {
    if |pieces| == 0 then []
    else if |pieces| == 1 then pieces[0]
    else pieces[0] + ", " + CommaJoin(pieces[1..])
  }

  /** `open + body + close`, printable when `body` is. */
  function Enclose(open: char, body: string, close: char): (r: string)
    requires ' ' <= open <= '~' && ' ' <= close <= '~' && Printable(body)
    ensures Printable(r) && r != []
  {
    [open] + body + [close]
  }

  /** `json.dumps(v)`: the text is printable ASCII, so it holds no line break. */
  function Encode(v: Json): (r: string)
    ensures Printable(r) && r != []
    decreases v
  {
    match v
    case JNull => "null"
    case JBool(b) => if b then "true" else "false"
    case JInt(i) => IntText(i)
    case JStr(s) => Quote(s)
    case JArr(items) =>
      var pieces := seq(|items|, k requires 0 <= k < |items| => Encode(items[k]));
      assert forall k :: 0 <= k < |items| ==> Printable(pieces[k]);
      Enclose('[', CommaJoin(pieces), ']')
    case JObj(members) =>
      var pieces := seq(|members|, k requires 0 <= k < |members| => EncodeMember(members[k]));
      assert forall k :: 0 <= k < |members| ==> Printable(pieces[k]);
      Enclose('{', CommaJoin(pieces), '}')
  }

  /** `"key": value` inside an object. */
  function EncodeMember(m: Member): (r: string)
    ensures Printable(r)
    decreases m
  {
    Quote(m.key) + ": " + Encode(m.value)
  }

  /** A character `json.dumps` writes as itself inside a string. */
  predicate Plain(c: char) {
    ' ' <= c <= '~' && c != '"' && c != '\\'
  }

  /**
   * A string comes out unchanged between its quotes exactly when every character is plain;
   * any other character is written as a longer escape.
   */
  lemma {:induction false} EscapeAllKeepsPlain(s: string)
    ensures |EscapeAll(s)| >= |s|
    ensures EscapeAll(s) == s <==> forall i :: 0 <= i < |s| ==> Plain(s[i])
  {
    if s != [] {
      EscapeAllKeepsPlain(s[1..]);
      var head, tail := EscapeChar(s[0]), EscapeAll(s[1..]);
      assert EscapeAll(s) == head + tail;
      if Plain(s[0]) {
        assert head == [s[0]];
        assert s == [s[0]] + s[1..];
        if forall i :: 0 <= i < |s[1..]| ==> Plain(s[1..][i]) {
          assert forall i :: 0 <= i < |s| ==> Plain(s[i]) by {
            forall i | 0 <= i < |s| ensures Plain(s[i]) {
              if i > 0 { assert s[i] == s[1..][i - 1]; }
            }
          }
        } else {
          var j :| 0 <= j < |s[1..]| && !Plain(s[1..][j]);
          assert !Plain(s[j + 1]);
          assert tail != s[1..];
          assert EscapeAll(s)[1..] == tail;
        }
      } else {
        assert |head| >= 2;
        assert !Plain(s[0]);
        assert |EscapeAll(s)| > |s|;
      }
    }
  }
}
