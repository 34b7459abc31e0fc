/**
 * Newline framing on the byte streams between the chat programs: a message goes out
 * as `(json.dumps(msg) + "\n").encode()`, and readers cut the bytes they receive at
 * each `b"\n"`.
 */
module Framing {
  import opened Wrappers
  import opened JsonText
  import opened Text

  newtype byte = x: int | 0 <= x < 256

  /** `b"\n"` */
  const NL: byte := 10

  /** `s.encode()` for a printable ASCII text: one byte per character, no line feed. */
  function AsciiBytes(s: string): (r: seq<byte>)
    requires Printable(s)
    ensures |r| == |s| && NL !in r
    ensures forall i :: 0 <= i < |s| ==> r[i] as int == s[i] as int
  {
    if s == [] then [] else [s[0] as int as byte] + AsciiBytes(s[1..])
  }

  /** The bytes of the JSON text of `v`. */
  function Line(v: Json): seq<byte> {
    AsciiBytes(Encode(v))
  }

  /** What `send_json` writes for `v`: its JSON text and one newline, which is its only newline. */
  function Frame(v: Json): (r: seq<byte>)
    ensures |r| >= 2 && r[|r| - 1] == NL && NL !in r[..|r| - 1]
  {
    var r := Line(v) + [NL];
    assert r[..|r| - 1] == Line(v);
    r
  }

  /** The frames of several messages sent one after another. */
  function Frames(msgs: seq<Json>): seq<byte> {
    if msgs == [] then [] else Frame(msgs[0]) + Frames(msgs[1..])
  }

  /** Lines each followed by a newline, back to back. */
  function JoinLines(lines: seq<seq<byte>>): seq<byte> {
    if lines == [] then [] else lines[0] + [NL] + JoinLines(lines[1..])
  }

  predicate NoNewlines(lines: seq<seq<byte>>) {
    forall i :: 0 <= i < |lines| ==> NL !in lines[i]
  }

  lemma JoinLinesCons(line: seq<byte>, lines: seq<seq<byte>>, rest: seq<byte>)
    ensures JoinLines([line] + lines) + rest == line + [NL] + (JoinLines(lines) + rest)
  {
    assert ([line] + lines)[1..] == lines;
  }

  /** One more line at the end. */
  lemma {:induction false} JoinLinesSnoc(lines: seq<seq<byte>>, line: seq<byte>)
    ensures JoinLines(lines + [line]) == JoinLines(lines) + line + [NL]
    decreases |lines|
  {
    if lines == [] {
      assert lines + [line] == [line];
      assert [line][1..] == [];
    } else {
      assert (lines + [line])[0] == lines[0] && (lines + [line])[1..] == lines[1..] + [line];
      JoinLinesSnoc(lines[1..], line);
    }
  }

  /** Cutting the first line off the buffer moves it, with its newline, to the lines taken so far. */
  lemma CutLine(lines: seq<seq<byte>>, buffer: seq<byte>, k: nat, tail: seq<byte>)
    requires k < |buffer| && buffer[k] == NL
    ensures JoinLines(lines) + buffer + tail == JoinLines(lines + [buffer[..k]]) + buffer[k + 1..] + tail
  {
    assert buffer == buffer[..k] + [NL] + buffer[k + 1..];
    JoinLinesSnoc(lines, buffer[..k]);
  }

  /** The lines of everything received are the lines taken so far and then those of what is left. */
  lemma LinesOfReceived(lines: seq<seq<byte>>, buffer: seq<byte>, more: seq<byte>)
    requires NoNewlines(lines)
    ensures SplitLines(JoinLines(lines) + buffer + more).0 == lines + SplitLines(buffer + more).0
    ensures more == [] && NL !in buffer ==> SplitLines(JoinLines(lines) + buffer + more).0 == lines
  {
    assert JoinLines(lines) + buffer + more == JoinLines(lines) + (buffer + more);
    SplitLinesAfter(lines, buffer + more);
    if more == [] && NL !in buffer {
      assert buffer + more == buffer;
      SplitLinesOfJoin([], buffer);
      assert JoinLines([]) + buffer == buffer;
      assert lines + [] == lines;
    }
  }

  /** The complete lines of `b`, in order, and the unterminated bytes after the last newline. */
  function SplitLines(b: seq<byte>): (r: (seq<seq<byte>>, seq<byte>))
    ensures NoNewlines(r.0) && NL !in r.1
    decreases |b|
  {
    if NL !in b then ([], b)
    else
      var k := IndexOf(b, NL);
      var rest := SplitLines(b[k + 1..]);
      ([b[..k]] + rest.0, rest.1)
  }

  /** Nothing is lost or reordered: the lines, each with its newline, then the rest, are `b`. */
  lemma {:induction false} SplitLinesJoin(b: seq<byte>)
    ensures JoinLines(SplitLines(b).0) + SplitLines(b).1 == b
    decreases |b|
  {
    if NL in b {
      var k := IndexOf(b, NL);
      var line, tail := b[..k], b[k + 1..];
      assert b == line + [NL] + tail;
      SplitLinesStep(line, tail);
      SplitLinesJoin(tail);
      JoinLinesCons(line, SplitLines(tail).0, SplitLines(tail).1);
    }
  }

  /** One unfolding of `SplitLines` at a known first newline. */
  lemma SplitLinesStep(line: seq<byte>, tail: seq<byte>)
    requires NL !in line
    ensures SplitLines(line + [NL] + tail) == ([line] + SplitLines(tail).0, SplitLines(tail).1)
  {
    var s := line + [NL] + tail;
    IndexOfAfter(line, NL, tail);
    assert s[|line|] == NL;
    assert s[..|line|] == line;
    assert s[|line| + 1..] == tail;
  }

  /** Splitting after some complete lines yields those lines first and then the lines of the rest. */
  lemma {:induction false} SplitLinesAfter(lines: seq<seq<byte>>, b: seq<byte>)
    requires NoNewlines(lines)
    ensures SplitLines(JoinLines(lines) + b) == (lines + SplitLines(b).0, SplitLines(b).1)
  {
    if lines == [] {
      assert JoinLines(lines) + b == b;
      assert lines + SplitLines(b).0 == SplitLines(b).0;
    } else {
      var head, more := lines[0], lines[1..];
      var tail := JoinLines(more) + b;
      var rest := SplitLines(b);
      assert NL !in head;
      assert JoinLines(lines) + b == head + [NL] + tail by {
        assert lines == [head] + more;
        JoinLinesCons(head, more, b);
      }
      assert SplitLines(head + [NL] + tail) == ([head] + SplitLines(tail).0, SplitLines(tail).1) by {
        SplitLinesStep(head, tail);
      }
      assert SplitLines(tail) == (more + rest.0, rest.1) by {
        assert NoNewlines(more);
        SplitLinesAfter(more, b);
      }
      assert [head] + (more + rest.0) == lines + rest.0;
    }
  }

  /** `SplitLines` inverts `JoinLines`: the lines and the rest are determined by the bytes. */
  lemma SplitLinesOfJoin(lines: seq<seq<byte>>, rest: seq<byte>)
    requires NoNewlines(lines) && NL !in rest
    ensures SplitLines(JoinLines(lines) + rest) == (lines, rest)
  {
    SplitLinesAfter(lines, rest);
    assert lines + [] == lines;
  }

  /** The lines carried by the frames of `msgs` are their JSON texts. */
  lemma {:induction false} FramesAreJoinedLines(msgs: seq<Json>)
    ensures Frames(msgs) == JoinLines(seq(|msgs|, i requires 0 <= i < |msgs| => Line(msgs[i])))
  {
    if msgs != [] {
      FramesAreJoinedLines(msgs[1..]);
      LinesOfFramesCons(msgs);
      FramesCons(msgs);
    }
  }

  lemma LinesOfFramesCons(msgs: seq<Json>)
    requires msgs != []
    ensures var ls := seq(|msgs|, i requires 0 <= i < |msgs| => Line(msgs[i]));
      var tl := seq(|msgs| - 1, i requires 0 <= i < |msgs| - 1 => Line(msgs[1..][i]));
      JoinLines(ls) == Line(msgs[0]) + [NL] + JoinLines(tl)
  {
    var ls := seq(|msgs|, i requires 0 <= i < |msgs| => Line(msgs[i]));
    var tl := seq(|msgs| - 1, i requires 0 <= i < |msgs| - 1 => Line(msgs[1..][i]));
    assert ls[1..] == tl;
  }

  lemma FramesCons(msgs: seq<Json>)
    requires msgs != []
    ensures Frames(msgs) == Line(msgs[0]) + [NL] + Frames(msgs[1..])
  {
  }

  /** Framing round trip: a reader that splits at newlines recovers each message's JSON text, in order, with nothing left over. */
  lemma FramesRoundTrip(msgs: seq<Json>)
    ensures SplitLines(Frames(msgs)) == (seq(|msgs|, i requires 0 <= i < |msgs| => Line(msgs[i])), [])
  {
    var ls := seq(|msgs|, i requires 0 <= i < |msgs| => Line(msgs[i]));
    FramesAreJoinedLines(msgs);
    assert JoinLines(ls) + [] == JoinLines(ls);
    SplitLinesOfJoin(ls, []);
  }

  /** The bytes a socket delivers: its chunks up to the first empty one, which is end of stream. */
  function Received(chunks: seq<seq<byte>>): seq<byte> {
    if chunks == [] || chunks[0] == [] then [] else chunks[0] + Received(chunks[1..])
  }

  /** Taking the next chunk into the buffer keeps account of the whole stream. */
  lemma TakeChunk(all: seq<byte>, lines: seq<seq<byte>>, buffer: seq<byte>, chunks: seq<seq<byte>>)
    requires chunks != [] && chunks[0] != []
    requires all == JoinLines(lines) + buffer + Received(chunks)
    ensures all == JoinLines(lines) + (buffer + chunks[0]) + Received(chunks[1..])
  {
  }

  /** When a reading loop ends, the lines it took and those of what it left are all the lines of the stream. */
  lemma LinesTaken(all: seq<byte>, lines: seq<seq<byte>>, buffer: seq<byte>, chunks: seq<seq<byte>>)
    requires NoNewlines(lines) && all == JoinLines(lines) + buffer + Received(chunks)
    ensures SplitLines(all).0 == lines + SplitLines(buffer + Received(chunks)).0
    ensures (chunks == [] || chunks[0] == []) && NL !in buffer ==> SplitLines(all).0 == lines
  {
    LinesOfReceived(lines, buffer, Received(chunks));
  }

  /** What one call of `receive_json` takes off the stream. */
  datatype ReadOutcome = ReadOutcome(
    line: Option<seq<byte>>,     // the first complete line, or None when the stream ended first
    dropped: seq<byte>,          // bytes read after that line's newline, lost with the local buffer
    unread: seq<seq<byte>>)      // chunks still waiting on the socket

  /** The reading loop of `receive_json`, with `buffer` what it has read so far. */
  function ReadLine(buffer: seq<byte>, chunks: seq<seq<byte>>): ReadOutcome
    decreases |chunks|
  {
    if chunks == [] || chunks[0] == [] then ReadOutcome(None, [], chunks)
    else
      var b := buffer + chunks[0];
      if NL in b then
        var k := IndexOf(b, NL);
        ReadOutcome(Some(b[..k]), b[k + 1..], chunks[1..])
      else ReadLine(b, chunks[1..])
  }

  /**
   * `receive_json` yields the first line of the stream, or nothing when the stream ends
   * before a newline; the line, its newline, the bytes read past it (which are lost) and
   * the chunks left unread make up the whole stream.
   */
  lemma {:induction false} ReadLineIsFirstLine(buffer: seq<byte>, chunks: seq<seq<byte>>)
    requires NL !in buffer
    ensures var r := ReadLine(buffer, chunks);
      && (r.line.None? <==> SplitLines(buffer + Received(chunks)).0 == [])
      && (r.line.Some? ==> r.line.value == SplitLines(buffer + Received(chunks)).0[0]
                           && buffer + Received(chunks) == r.line.value + [NL] + r.dropped + Received(r.unread))
    decreases |chunks|
  {
    if chunks == [] || chunks[0] == [] {
      assert buffer + Received(chunks) == buffer;
      SplitLinesOfJoin([], buffer);
    } else {
      var b := buffer + chunks[0];
      assert buffer + Received(chunks) == b + Received(chunks[1..]);
      if NL in b {
        ReadLineFound(b, Received(chunks[1..]));
      } else {
        ReadLineIsFirstLine(b, chunks[1..]);
      }
    }
  }

  /** The step of `ReadLineIsFirstLine` where the buffer holds a newline. */
  lemma ReadLineFound(b: seq<byte>, more: seq<byte>)
    requires NL in b
    ensures var k := IndexOf(b, NL);
      && SplitLines(b + more).0 != [] && SplitLines(b + more).0[0] == b[..k]
      && b + more == b[..k] + [NL] + b[k + 1..] + more
  {
    var k := IndexOf(b, NL);
    var line, tail := b[..k], b[k + 1..] + more;
    assert b + more == line + [NL] + tail;
    SplitLinesStep(line, tail);
  }

  /** `receive_json` consumes whole chunks from the front of the stream: what it leaves is a suffix. */
  lemma {:induction false} ReadLineUnread(buffer: seq<byte>, chunks: seq<seq<byte>>)
    ensures var r := ReadLine(buffer, chunks);
      |r.unread| <= |chunks| && r.unread == chunks[|chunks| - |r.unread|..]
    decreases |chunks|
  {
    if chunks == [] || chunks[0] == [] {
      assert chunks[0..] == chunks;
    } else if NL in buffer + chunks[0] {
      assert ReadLine(buffer, chunks).unread == chunks[1..];
    } else {
      var rest := chunks[1..];
      assert ReadLine(buffer, chunks) == ReadLine(buffer + chunks[0], rest);
      ReadLineUnread(buffer + chunks[0], rest);
      var u := ReadLine(buffer + chunks[0], rest).unread;
      var m := |rest| - |u|;
      assert rest[m..] == chunks[m + 1..];
    }
  }

  /** A chunk holding a whole line and more: the line is returned and the rest of the chunk is lost. */
  lemma ReadLineOneChunk(line: seq<byte>, rest: seq<byte>, later: seq<seq<byte>>)
    requires NL !in line
    ensures ReadLine([], [line + [NL] + rest] + later) == ReadOutcome(Some(line), rest, later)
  {
    var c := line + [NL] + rest;
    var chunks := [c] + later;
    assert chunks[0] == c && chunks[1..] == later;
    assert [] + c == c;
    IndexOfAfter(line, NL, rest);
    assert c[..|line|] == line && c[|line| + 1..] == rest;
  }

  /** Two frames arriving in one chunk: `receive_json` returns the first and loses the second. */
  lemma ReadLineDropsSecondFrame(a: Json, b: Json, later: seq<seq<byte>>)
    ensures ReadLine([], [Frame(a) + Frame(b)] + later) == ReadOutcome(Some(Line(a)), Frame(b), later)
  {
    assert Frame(a) + Frame(b) == Line(a) + [NL] + Frame(b);
    ReadLineOneChunk(Line(a), Frame(b), later);
  }
}
