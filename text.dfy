/**
 * The handful of Python string operations the chat programs rely on:
 * `str.isspace`/`str.strip`, `str.split(sep)`, `str.split(sep, maxsplit)`,
 * `str.lower` and `str.startswith`, over sequences (characters or bytes).
 */
module Text {

  /** Characters for which Python's `str.isspace()` holds; `str.strip()` removes exactly these. */
  predicate IsSpace(c: char) {
    var n := c as int;
    n == 0x20 || 0x09 <= n <= 0x0D || 0x1C <= n <= 0x1F || n == 0x85 || n == 0xA0
    || n == 0x1680 || 0x2000 <= n <= 0x200A || n == 0x2028 || n == 0x2029
    || n == 0x202F || n == 0x205F || n == 0x3000
  }

  /** How many whitespace characters `s.lstrip()` removes. */
  function LeadingSpaces(s: string): (k: nat)
    ensures k <= |s|
    ensures forall i :: 0 <= i < k ==> IsSpace(s[i])
    ensures k < |s| ==> !IsSpace(s[k])
  {
    if s != [] && IsSpace(s[0]) then 1 + LeadingSpaces(s[1..]) else 0
  }

  /** How many whitespace characters `s.rstrip()` removes. */
  function TrailingSpaces(s: string): (k: nat)
    ensures k <= |s|
    ensures forall i :: |s| - k <= i < |s| ==> IsSpace(s[i])
    ensures k < |s| ==> !IsSpace(s[|s| - k - 1])
  {
    if s != [] && IsSpace(s[|s| - 1]) then 1 + TrailingSpaces(s[..|s| - 1]) else 0
  }

  /** `r` is the run of `s` starting at `i`, and everything of `s` around it is whitespace. */
  predicate TrimmedAt(s: string, i: nat, r: string) {
    && i + |r| <= |s| && r == s[i..i + |r|]
    && (forall k :: 0 <= k < i ==> IsSpace(s[k]))
    && (forall k :: i + |r| <= k < |s| ==> IsSpace(s[k]))
  }

  /** `s.strip()`: the run of `s` left once the whitespace at both ends is removed. */
  function Strip(s: string): (r: string)
    ensures TrimmedAt(s, LeadingSpaces(s), r)
    ensures r != [] ==> !IsSpace(r[0]) && !IsSpace(r[|r| - 1])
  {
    var t := s[LeadingSpaces(s)..];
    t[..|t| - TrailingSpaces(t)]
  }

  /** `not s.strip()` holds exactly of the pieces made of whitespace only (or of nothing). */
  lemma StripEmptyIffBlank(s: string)
    ensures Strip(s) == [] <==> forall i :: 0 <= i < |s| ==> IsSpace(s[i])
  {
    var k := LeadingSpaces(s);
    if k < |s| {
      var t := s[k..];
      assert t[0] == s[k];
      assert TrailingSpaces(t) < |t|;
    }
  }

  /** A text that starts and ends with a visible character is its own `strip()`. */
  lemma StripKeeps(s: string)
    requires s != [] && !IsSpace(s[0]) && !IsSpace(s[|s| - 1])
    ensures Strip(s) == s
  {
    assert LeadingSpaces(s) == 0;
    assert s[0..] == s;
    assert TrailingSpaces(s) == 0;
  }

  /** Index of the first occurrence of `x` in `s`. */
  function IndexOf<T(==)>(s: seq<T>, x: T): (k: nat)
    requires x in s
    ensures k < |s| && s[k] == x && x !in s[..k]
  {
    if s[0] == x then 0 else 1 + IndexOf(s[1..], x)
  }

  /** The pieces glued back together with one separator between neighbours: `sep.join(pieces)`. */
  function Join<T>(pieces: seq<seq<T>>, sep: T): seq<T> {
    if |pieces| == 0 then []
    else if |pieces| == 1 then pieces[0]
    else pieces[0] + [sep] + Join(pieces[1..], sep)
  }

  /**
   * `s.split(sep, maxSplits)`: cut at the first `maxSplits` separators; the last
   * piece keeps any further separators. `s.split(sep)` is `Split(s, sep)` below.
   */
  function SplitMax<T(==)>(s: seq<T>, sep: T, maxSplits: nat): (r: seq<seq<T>>)
    ensures 1 <= |r| <= maxSplits + 1
    ensures Join(r, sep) == s
    ensures forall i :: 0 <= i < |r| - 1 ==> sep !in r[i]
    ensures |r| <= maxSplits ==> sep !in r[|r| - 1]
    decreases |s|
  {
    if maxSplits == 0 || sep !in s then [s]
    else
      var k := IndexOf(s, sep);
      var rest := SplitMax(s[k + 1..], sep, maxSplits - 1);
      assert s == s[..k] + [sep] + s[k + 1..];
      [s[..k]] + rest
  }

  /** `s.split(sep)`: every separator cuts. */
  function Split<T(==)>(s: seq<T>, sep: T): (r: seq<seq<T>>)
    ensures |r| >= 1
    ensures Join(r, sep) == s
    ensures forall i :: 0 <= i < |r| ==> sep !in r[i]
    decreases |s|
  {
    if sep !in s then [s]
    else
      var k := IndexOf(s, sep);
      var rest := Split(s[k + 1..], sep);
      assert s == s[..k] + [sep] + s[k + 1..];
      [s[..k]] + rest
  }

  /** The first separator of `a + [sep] + b` is the one after `a` when `a` holds none. */
  lemma {:induction false} IndexOfAfter<T>(a: seq<T>, sep: T, b: seq<T>)
    requires sep !in a
    ensures IndexOf(a + [sep] + b, sep) == |a|
  {
    if a != [] {
      assert (a + [sep] + b)[1..] == a[1..] + [sep] + b;
      IndexOfAfter(a[1..], sep, b);
    }
  }

  /** `Split` is the only cut of `s` into separator-free pieces: it inverts `Join`. */
  lemma {:induction false} SplitJoin<T>(pieces: seq<seq<T>>, sep: T)
    requires |pieces| >= 1
    requires forall i :: 0 <= i < |pieces| ==> sep !in pieces[i]
    ensures Split(Join(pieces, sep), sep) == pieces
  {
    if |pieces| > 1 {
      var s := Join(pieces, sep);
      var tail := Join(pieces[1..], sep);
      assert s == pieces[0] + [sep] + tail;
      IndexOfAfter(pieces[0], sep, tail);
      assert s[|pieces[0]|] == sep;
      assert s[..|pieces[0]|] == pieces[0];
      assert s[|pieces[0]| + 1..] == tail;
      SplitJoin(pieces[1..], sep);
      assert pieces == [pieces[0]] + pieces[1..];
    }
  }

  /** One character lowered: only `A` to `Z` change. */
  function LowerChar(c: char): (r: char)
    ensures 'A' <= c <= 'Z' ==> 'a' <= r <= 'z'
    ensures !('A' <= c <= 'Z') ==> r == c
  {
    if 'A' <= c <= 'Z' then (c as int + 32) as char else c
  }

  /** ASCII case folding. For the ASCII words the client compares against this agrees with `str.lower()`. */
  function Lower(s: string): (r: string)
    ensures |r| == |s|
  {
    if s == [] then [] else [LowerChar(s[0])] + Lower(s[1..])
  }

  lemma {:induction false} LowerAppend(a: string, b: string)
    ensures Lower(a + b) == Lower(a) + Lower(b)
  {
    if a != [] {
      LowerAppend(a[1..], b);
      assert (a + b)[1..] == a[1..] + b;
      assert (a + b)[0] == a[0];
    } else {
      assert a + b == b;
    }
  }

  /** Lowering works character by character. */
  lemma {:induction false} LowerAt(s: string, i: nat)
    requires i < |s|
    ensures Lower(s)[i] == LowerChar(s[i])
  {
    if i > 0 {
      LowerAt(s[1..], i - 1);
      assert Lower(s) == [LowerChar(s[0])] + Lower(s[1..]);
    }
  }

  lemma LowerPrefix(s: string, n: nat)
    requires n <= |s|
    ensures Lower(s[..n]) == Lower(s)[..n]
  {
    forall i | 0 <= i < n
      ensures Lower(s[..n])[i] == Lower(s)[..n][i]
    {
      LowerAt(s[..n], i);
      LowerAt(s, i);
    }
  }

  /** Lowering neither makes nor removes spaces. */
  lemma {:induction false} LowerKeepsSpaces(s: string)
    ensures ' ' in s <==> ' ' in Lower(s)
  {
    if s != [] {
      LowerKeepsSpaces(s[1..]);
      assert Lower(s) == [LowerChar(s[0])] + Lower(s[1..]);
      assert s == [s[0]] + s[1..];
    }
  }

  /** `s.startswith(prefix)` */
  predicate StartsWith<T(==)>(s: seq<T>, prefix: seq<T>) {
    |prefix| <= |s| && s[..|prefix|] == prefix
  }
}
