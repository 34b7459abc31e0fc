/**
 * The command line of the chat client's main loop: what one input line asks for.
 * Command words are matched on the stripped line lowered to small letters; the target
 * and the message come from `line.split(" ", 2)` of the stripped line as typed.
 */
module Commands {
  import opened Wrappers
  import opened Text

  datatype Command =
    | Blank                                       // nothing but whitespace: ignored
    | Help
    | Users
    | P2P(target: string, message: string)
    | Relay(target: string, message: string)
    | P2PUsage                                    // "p2p " without both a target and a message
    | RelayUsage
    | Quit                                        // "quit", "exit" or "salir"
    | Unknown

  /** `len(parts) >= 3` of `parts = line.split(" ", 2)`: the target and the message. */
  function Arguments(line: string): (r: Option<(string, string)>)
    ensures r.Some? ==> ' ' !in r.value.0
  {
    var parts := SplitMax(line, ' ', 2);
    if |parts| >= 3 then Some((parts[1], parts[2])) else None
  }

  /** The branch of the main loop that the input line `raw` takes. */
  function ParseCommand(raw: string): (c: Command)
    ensures c == Blank <==> forall i :: 0 <= i < |raw| ==> IsSpace(raw[i])
    ensures (c.P2P? || c.P2PUsage?) <==> Strip(raw) != [] && StartsWith(Lower(Strip(raw)), "p2p ")
    ensures (c.Relay? || c.RelayUsage?) <==> Strip(raw) != [] && StartsWith(Lower(Strip(raw)), "relay ")
  {
    StripEmptyIffBlank(raw);
    var line := Strip(raw);
    var lower := Lower(line);
    assert StartsWith(lower, "p2p ") ==> lower[0] == 'p';
    assert StartsWith(lower, "relay ") ==> lower[0] == 'r';
    if line == [] then Blank
    else if lower == "help" then Help
    else if lower == "users" then Users
    else if StartsWith(lower, "p2p ") then
      match Arguments(line)
      case Some((target, message)) => P2P(target, message)
      case None => P2PUsage
    else if StartsWith(lower, "relay ") then
      match Arguments(line)
      case Some((target, message)) => Relay(target, message)
      case None => RelayUsage
    else if lower == "quit" || lower == "exit" || lower == "salir" then Quit
    else Unknown
  }

  /** A line starting with "p2p " is a P2P command exactly when it has arguments. */
  lemma ParseP2PLine(raw: string)
    requires Strip(raw) != [] && StartsWith(Lower(Strip(raw)), "p2p ")
    ensures ParseCommand(raw) == if Arguments(Strip(raw)).Some? then P2P(Arguments(Strip(raw)).value.0, Arguments(Strip(raw)).value.1) else P2PUsage
  {
    assert |Lower(Strip(raw))| >= 4;
  }

  /** A line starting with "relay " is a relay command exactly when it has arguments. */
  lemma ParseRelayLine(raw: string)
    requires Strip(raw) != [] && StartsWith(Lower(Strip(raw)), "relay ")
    ensures ParseCommand(raw) == if Arguments(Strip(raw)).Some? then Relay(Arguments(Strip(raw)).value.0, Arguments(Strip(raw)).value.1) else RelayUsage
  {
    assert |Lower(Strip(raw))| >= 6;
    assert Lower(Strip(raw))[0] == 'r';
  }

  /** A space-free token, a space and the rest: the token is the first piece. */
  lemma SplitMaxCons(a: string, b: string, maxSplits: nat)
    requires ' ' !in a
    ensures SplitMax(a + " " + b, ' ', maxSplits + 1) == [a] + SplitMax(b, ' ', maxSplits)
  {
    var s := a + " " + b;
    assert s[|a|] == ' ' && s[..|a|] == a && s[|a| + 1..] == b;
    IndexOfAfter(a, ' ', b);
  }

  /** No space: nothing to split. */
  lemma SplitOnceNone(s: string)
    requires ' ' !in s
    ensures SplitMax(s, ' ', 1) == [s]
  {
  }

  /** A command word typed in any case contains no space, and its lowering has the same length. */
  lemma WordHasNoSpace(w: string, word: string)
    requires Lower(w) == word && ' ' !in word
    ensures ' ' !in w && |w| == |word|
  {
    LowerKeepsSpaces(w);
  }

  /** A line whose lowering starts with `word` and a space starts with a casing of `word` and a space. */
  lemma WordPrefix(line: string, word: string)
    requires ' ' !in word && StartsWith(Lower(line), word + " ")
    ensures |word| < |line| && ' ' !in line[..|word|] && line[|word|] == ' ' && Lower(line[..|word|]) == word
  {
    var n := |word|;
    PrefixParts(Lower(line), word);
    LowerSpace(line, n);
    LowerPrefix(line, n);
    LowerKeepsSpaces(line[..n]);
  }

  lemma PrefixParts(low: string, word: string)
    requires StartsWith(low, word + " ")
    ensures |word| < |low| && low[|word|] == ' ' && low[..|word|] == word
  {
    assert low[..|word| + 1] == word + " ";
    assert low[|word|] == low[..|word| + 1][|word|];
    assert low[..|word|] == low[..|word| + 1][..|word|];
  }

  lemma LowerSpace(line: string, i: nat)
    requires i < |line|
    ensures Lower(line)[i] == ' ' <==> line[i] == ' '
  {
    LowerAt(line, i);
  }

  /** The arguments after a first token ending at `n`: present exactly when another space follows. */
  lemma ArgumentsAt(line: string, n: nat)
    requires n < |line| && line[n] == ' ' && ' ' !in line[..n]
    ensures Arguments(line).Some? <==> ' ' in line[n + 1..]
    ensures Arguments(line).Some? ==>
      line == line[..n] + " " + Arguments(line).value.0 + " " + Arguments(line).value.1
  {
    var first, rest := line[..n], line[n + 1..];
    assert line == first + " " + rest;
    if ' ' in rest {
      var target, message := FirstSpace(rest);
      assert line == first + " " + target + " " + message;
      ArgumentsOfParts(line, first, target, message);
    } else {
      ArgumentsOfTwoParts(line, first, rest);
    }
  }

  /** A string holding a space is a space-free token, that space and the rest. */
  lemma FirstSpace(s: string) returns (a: string, b: string)
    requires ' ' in s
    ensures s == a + " " + b && ' ' !in a
  {
    var k := IndexOf(s, ' ');
    a, b := s[..k], s[k + 1..];
    assert s == a + " " + b;
  }

  /** `p2p <user> <message>`: the target is the second token and the message keeps its spaces. */
  lemma P2PCommandShape(raw: string)
    requires ParseCommand(raw).P2P?
    ensures var line, c := Strip(raw), ParseCommand(raw);
      && Lower(line[..3]) == "p2p" && ' ' !in c.target
      && line == line[..3] + " " + c.target + " " + c.message
  {
    var line := Strip(raw);
    assert Arguments(line).Some? && ParseCommand(raw) == P2P(Arguments(line).value.0, Arguments(line).value.1) by {
      ParseP2PLine(raw);
    }
    CommandLineShape(line, "p2p");
  }

  lemma RelayCommandShape(raw: string)
    requires ParseCommand(raw).Relay?
    ensures var line, c := Strip(raw), ParseCommand(raw);
      && Lower(line[..5]) == "relay" && ' ' !in c.target
      && line == line[..5] + " " + c.target + " " + c.message
  {
    var line := Strip(raw);
    assert Arguments(line).Some? && ParseCommand(raw) == Relay(Arguments(line).value.0, Arguments(line).value.1) by {
      ParseRelayLine(raw);
    }
    CommandLineShape(line, "relay");
  }

  /** A line starting with a command word and a space, with arguments: the word, a space, the target, a space, the message. */
  lemma CommandLineShape(line: string, word: string)
    requires ' ' !in word && StartsWith(Lower(line), word + " ") && Arguments(line).Some?
    ensures Lower(line[..|word|]) == word
    ensures line == line[..|word|] + " " + Arguments(line).value.0 + " " + Arguments(line).value.1
  {
    WordPrefix(line, word);
    ArgumentsAt(line, |word|);
  }

  /** Too few parts: after "p2p " the line has no further space, so no message. */
  lemma P2PUsageShape(raw: string)
    requires ParseCommand(raw) == P2PUsage
    ensures ' ' !in Strip(raw)[4..]
  {
    var line := Strip(raw);
    assert Arguments(line).None? by {
      ParseP2PLine(raw);
    }
    WordPrefix(line, "p2p");
    ArgumentsAt(line, 3);
  }

  /**
   * Conversely, `<w> <target> <message>` with `w` any casing of "p2p", a space-free target
   * and a message that ends in a visible character is parsed to exactly that target and message.
   */
  lemma P2PCommandFromParts(w: string, target: string, message: string)
    requires Lower(w) == "p2p" && ' ' !in target
    requires message != [] && !IsSpace(message[|message| - 1])
    ensures ParseCommand(w + " " + target + " " + message) == P2P(target, message)
  {
    var line := w + " " + target + " " + message;
    StripOfCommand(w, "p2p", target, message);
    LowerOfCommand(w, "p2p", target, message);
    ArgumentsOfCommand(w, "p2p", target, message);
    ParseP2PLine(line);
  }

  /** The same for `relay <user> <message>`. */
  lemma RelayCommandFromParts(w: string, target: string, message: string)
    requires Lower(w) == "relay" && ' ' !in target
    requires message != [] && !IsSpace(message[|message| - 1])
    ensures ParseCommand(w + " " + target + " " + message) == Relay(target, message)
  {
    var line := w + " " + target + " " + message;
    StripOfCommand(w, "relay", target, message);
    LowerOfCommand(w, "relay", target, message);
    ArgumentsOfCommand(w, "relay", target, message);
    ParseRelayLine(line);
  }

  lemma StripOfCommand(w: string, word: string, target: string, message: string)
    requires Lower(w) == word && word != [] && !IsSpace(word[0])
    requires message != [] && !IsSpace(message[|message| - 1])
    ensures Strip(w + " " + target + " " + message) == w + " " + target + " " + message
  {
    var line := w + " " + target + " " + message;
    LowerAt(w, 0);
    assert LowerChar(w[0]) == word[0];
    assert line[0] == w[0] && line[|line| - 1] == message[|message| - 1];
    StripKeeps(line);
  }

  lemma LowerOfCommand(w: string, word: string, target: string, message: string)
    requires Lower(w) == word
    ensures StartsWith(Lower(w + " " + target + " " + message), word + " ")
  {
    var rest := target + " " + message;
    assert w + " " + target + " " + message == w + (" " + rest);
    LowerOfWord(w, word, rest);
  }

  lemma LowerOfWord(w: string, word: string, rest: string)
    requires Lower(w) == word
    ensures StartsWith(Lower(w + (" " + rest)), word + " ")
  {
    LowerAppend(w, " " + rest);
    LowerAppend(" ", rest);
    assert Lower(" ") == " " by {
      assert Lower(" ") == [LowerChar(' ')] + Lower([]);
    }
    assert Lower(w + (" " + rest)) == (word + " ") + Lower(rest);
  }

  lemma ArgumentsOfCommand(w: string, word: string, target: string, message: string)
    requires Lower(w) == word && ' ' !in word && ' ' !in target
    ensures Arguments(w + " " + target + " " + message) == Some((target, message))
  {
    WordHasNoSpace(w, word);
    ArgumentsOfParts(w + " " + target + " " + message, w, target, message);
  }

  /** Two space-free tokens and the rest: the second token is the target and the rest the message. */
  lemma ArgumentsOfParts(line: string, first: string, target: string, message: string)
    requires line == first + " " + target + " " + message && ' ' !in first && ' ' !in target
    ensures Arguments(line) == Some((target, message))
  {
    assert line == first + " " + (target + " " + message);
    SplitMaxCons(first, target + " " + message, 1);
    SplitMaxCons(target, message, 0);
    assert SplitMax(message, ' ', 0) == [message];
  }

  /** One space-free token, a space and a space-free rest: too few parts. */
  lemma ArgumentsOfTwoParts(line: string, first: string, rest: string)
    requires line == first + " " + rest && ' ' !in first && ' ' !in rest
    ensures Arguments(line).None?
  {
    SplitMaxCons(first, rest, 1);
    SplitOnceNone(rest);
  }
}
