/**
 * The few pieces of Python's `str` and text-file behaviour that the bot relies on:
 * `str.strip()`, `str.startswith`, `str.split(',')` and `','.join`, and reading a
 * text file line by line (universal-newline translation, then one line per `\n`).
 */
module Text {

  /** The characters for which Python's `str.isspace()` holds: those `str.strip()` removes. */
  const Whitespace: set<char> := {
    '\t', '\n', '\U{0B}', '\U{0C}', '\r', '\U{1C}', '\U{1D}', '\U{1E}', '\U{1F}', ' ',
    '\U{85}', '\U{A0}', '\U{1680}',
    '\U{2000}', '\U{2001}', '\U{2002}', '\U{2003}', '\U{2004}', '\U{2005}',
    '\U{2006}', '\U{2007}', '\U{2008}', '\U{2009}', '\U{200A}',
    '\U{2028}', '\U{2029}', '\U{202F}', '\U{205F}', '\U{3000}'
  }

  predicate IsWhitespace(c: char) {
    c in Whitespace
  }

  /** `s` has no whitespace at either end, so `s.strip()` leaves it alone. */
  predicate Trimmed(s: string) {
    s == [] || (!IsWhitespace(s[0]) && !IsWhitespace(s[|s| - 1]))
  }

  /** Removes leading whitespace: the result is a suffix of `s` not starting with whitespace. */
  function TrimLeft(s: string): (r: string)
    ensures |r| <= |s| && r == s[|s| - |r|..]
    ensures r == [] || !IsWhitespace(r[0])
  {
    if s != [] && IsWhitespace(s[0]) then TrimLeft(s[1..]) else s
  }

  /** Removes trailing whitespace: the result is a prefix of `s` not ending with whitespace. */
  function TrimRight(s: string): (r: string)
    ensures |r| <= |s| && r == s[..|r|]
    ensures r == [] || !IsWhitespace(r[|r| - 1])
  {
    if s != [] && IsWhitespace(s[|s| - 1]) then TrimRight(s[..|s| - 1]) else s
  }

  /** Python's `s.strip()`. */
  function Strip(s: string): (r: string)
    ensures Trimmed(r) && |r| <= |s|
  {
    TrimRight(TrimLeft(s))
  }

  /** What `TrimLeft` drops is whitespace. */
  lemma {:induction false} TrimLeftDropsWhitespace(s: string)
    ensures forall i :: 0 <= i < |s| - |TrimLeft(s)| ==> IsWhitespace(s[i])
  {
    if s != [] && IsWhitespace(s[0]) {
      TrimLeftDropsWhitespace(s[1..]);
    }
  }

  /** What `TrimRight` drops is whitespace. */
  lemma {:induction false} TrimRightDropsWhitespace(s: string)
    ensures forall i :: |TrimRight(s)| <= i < |s| ==> IsWhitespace(s[i])
  {
    if s != [] && IsWhitespace(s[|s| - 1]) {
      TrimRightDropsWhitespace(s[..|s| - 1]);
    }
  }

  /** Stripping changes a string exactly when it has whitespace at one end. */
  lemma StripFixesTrimmed(s: string)
    ensures Strip(s) == s <==> Trimmed(s)
  {
    if Trimmed(s) && s != [] {
      assert TrimLeft(s) == s;
      assert TrimRight(s) == s;
    }
  }

  /** A trailing newline is whitespace, so trimming the right end drops it first. */
  lemma TrimRightNewline(s: string)
    ensures TrimRight(s + "\n") == TrimRight(s)
  {
    var t := s + "\n";
    assert IsWhitespace(t[|t| - 1]);
    assert t[..|t| - 1] == s;
  }

  /** Stripping a trimmed line together with its newline terminator gives the line back. */
  lemma StripLine(s: string)
    requires Trimmed(s)
    ensures Strip(s + "\n") == s
  {
    var t := s + "\n";
    assert TrimLeft(t) == t || (s == [] && TrimLeft(t) == []) by {
      if s == [] {
        assert IsWhitespace(t[0]) && t[1..] == [];
      } else {
        assert t[0] == s[0];
      }
    }
    if s == [] {
      assert Strip(t) == TrimRight([]);
    } else {
      TrimRightNewline(s);
      StripFixesTrimmed(s);
    }
  }

  /** Python's `s.startswith(p)`. */
  function StartsWith(s: string, p: string): (b: bool)
    ensures b <==> |p| <= |s| && forall i :: 0 <= i < |p| ==> s[i] == p[i]
  {
    |p| <= |s| && s[..|p|] == p
  }

  /** Python's `s.split(sep)` for a one-character separator: never empty, no trimming. */
  function Split(s: string, sep: char): (parts: seq<string>)
    ensures |parts| >= 1
    ensures forall i :: 0 <= i < |parts| ==> sep !in parts[i]
  {
    if s == [] then [[]]
    else
      var rest := Split(s[1..], sep);
      if s[0] == sep then [[]] + rest
      else [[s[0]] + rest[0]] + rest[1..]
  }

  /** Python's `sep.join(parts)`. */
  function Join(parts: seq<string>, sep: char): (s: string)
    ensures |parts| == 1 ==> s == parts[0]
  {
    if parts == [] then []
    else if |parts| == 1 then parts[0]
    else parts[0] + [sep] + Join(parts[1..], sep)
  }

  /** Joining the pieces of a split with the same separator restores the string. */
  lemma {:induction false} JoinSplit(s: string, sep: char)
    ensures Join(Split(s, sep), sep) == s
  {
    if s != [] {
      var rest := Split(s[1..], sep);
      JoinSplit(s[1..], sep);
      if s[0] == sep {
        assert Split(s, sep) == [[]] + rest;
        assert Join(Split(s, sep), sep) == [] + [sep] + Join(rest, sep);
      } else {
        var parts := Split(s, sep);
        assert parts == [[s[0]] + rest[0]] + rest[1..];
        if |rest| == 1 {
          assert Join(parts, sep) == [s[0]] + rest[0];
        } else {
          assert Join(rest, sep) == rest[0] + [sep] + Join(rest[1..], sep);
          assert parts[1..] == rest[1..];
          assert Join(parts, sep) == [s[0]] + rest[0] + [sep] + Join(rest[1..], sep);
        }
      }
    }
  }

  /** Splitting a join of separator-free pieces gives the pieces back. */
  lemma {:induction false} SplitJoin(parts: seq<string>, sep: char)
    requires |parts| >= 1
    requires forall i :: 0 <= i < |parts| ==> sep !in parts[i]
    ensures Split(Join(parts, sep), sep) == parts
  {
    if |parts| == 1 {
      SplitNoSeparator(parts[0], sep);
    } else {
      SplitJoin(parts[1..], sep);
      SplitPrefix(parts[0], Join(parts[1..], sep), sep);
      assert Join(parts, sep) == parts[0] + [sep] + Join(parts[1..], sep);
      assert [parts[0]] + parts[1..] == parts;
    }
  }

  /** A string without the separator splits into itself. */
  lemma {:induction false} SplitNoSeparator(s: string, sep: char)
    requires sep !in s
    ensures Split(s, sep) == [s]
  {
    if s != [] {
      SplitNoSeparator(s[1..], sep);
      assert [s[0]] + s[1..] == s;
    }
  }

  /** A separator-free head followed by the separator splits off as one piece. */
  lemma {:induction false} SplitPrefix(head: string, tail: string, sep: char)
    requires sep !in head
    ensures Split(head + [sep] + tail, sep) == [head] + Split(tail, sep)
  {
    var s := head + [sep] + tail;
    if head == [] {
      assert s[1..] == tail;
    } else {
      SplitPrefix(head[1..], tail, sep);
      assert s[1..] == head[1..] + [sep] + tail;
      assert [head[0]] + head[1..] == head;
    }
  }

  /** How many characters of non-empty text make its first translated character. */
  function NewlineWidth(s: string): (k: nat)
    requires s != []
    ensures 1 <= k <= |s|
  {
    if s[0] == '\r' && |s| > 1 && s[1] == '\n' then 2 else 1
  }

  /**
   * Python's universal-newline translation on reading a text file:
   * `\r\n` and a lone `\r` both become `\n`.
   */
  function Universal(s: string): (r: string)
    ensures |r| <= |s|
    decreases |s|
  {
    if s == [] then []
    else [if s[0] == '\r' then '\n' else s[0]] + Universal(s[NewlineWidth(s)..])
  }

  /**
   * Translated text holds no carriage return, is empty only when the file is,
   * and still ends with a newline when the file does.
   */
  lemma {:induction false} UniversalShape(s: string)
    ensures '\r' !in Universal(s)
    ensures Universal(s) == [] <==> s == []
    ensures s != [] && s[|s| - 1] == '\n' ==> Universal(s)[|Universal(s)| - 1] == '\n'
    decreases |s|
  {
    if s != [] {
      var t := s[NewlineWidth(s)..];
      var c := if s[0] == '\r' then '\n' else s[0];
      var u := Universal(t);
      UniversalShape(t);
      assert Universal(s) == [c] + u;
      assert c != '\r';
      if s[|s| - 1] == '\n' {
        if t == [] {
          assert c == '\n';
        } else {
          assert t[|t| - 1] == s[|s| - 1];
          assert ([c] + u)[|u|] == u[|u| - 1];
        }
      }
    }
  }

  /** Text without carriage returns reads back unchanged. */
  lemma {:induction false} UniversalPlain(s: string)
    requires '\r' !in s
    ensures Universal(s) == s
  {
    if s != [] {
      UniversalPlain(s[1..]);
      assert [s[0]] + s[1..] == s;
    }
  }

  /** A `\r\n` pair reads as one `\n`. */
  lemma UniversalCrLf(rest: string)
    ensures Universal("\r\n" + rest) == "\n" + Universal(rest)
  {
    var s := "\r\n" + rest;
    assert s[0] == '\r' && s[1] == '\n' && s[2..] == rest;
  }

  /** A `\r` not followed by `\n` reads as `\n` too. */
  lemma UniversalLoneCr(rest: string)
    requires rest == [] || rest[0] != '\n'
    ensures Universal("\r" + rest) == "\n" + Universal(rest)
  {
    var s := "\r" + rest;
    assert s[0] == '\r' && s[1..] == rest;
  }

  /** Any other character reads as itself. */
  lemma UniversalOther(c: char, rest: string)
    requires c != '\r'
    ensures Universal([c] + rest) == [c] + Universal(rest)
  {
    var s := [c] + rest;
    assert s[0] == c && s[1..] == rest;
  }

  /** Translation works piecewise when the first piece does not end in `\r`. */
  lemma {:induction false} UniversalAppend(a: string, b: string)
    requires a == [] || a[|a| - 1] != '\r'
    ensures Universal(a + b) == Universal(a) + Universal(b)
    decreases |a|
  {
    if a == [] {
      assert a + b == b;
    } else {
      var k := NewlineWidth(a);
      assert (a + b)[0] == a[0];
      assert a[0] == '\r' ==> |a| > 1 && (a + b)[1] == a[1];
      assert NewlineWidth(a + b) == k;
      assert (a + b)[k..] == a[k..] + b;
      UniversalAppend(a[k..], b);
    }
  }

  /**
   * Where the first line of non-empty text ends: just after its first `\n`, or at
   * the end of the text when it has none.
   */
  function LineEnd(s: string): (k: nat)
    requires s != []
    ensures 1 <= k <= |s|
  {
    if s[0] == '\n' || |s| == 1 then 1 else 1 + LineEnd(s[1..])
  }

  /** `k` ends the first line of `s`: no line break before position `k - 1`, and one there unless `k` is the end. */
  ghost predicate EndsFirstLine(s: string, k: nat) {
    && 1 <= k <= |s|
    && (forall i :: 0 <= i < k - 1 ==> s[i] != '\n')
    && (s[k - 1] == '\n' || k == |s|)
  }

  /** `LineEnd` finds where the first line ends. */
  lemma {:induction false} LineEndSpec(s: string)
    requires s != []
    ensures EndsFirstLine(s, LineEnd(s))
  {
    if s[0] != '\n' && |s| > 1 {
      LineEndSpec(s[1..]);
    }
  }

  /** Only one position ends the first line. */
  lemma LineEndUnique(s: string, k: nat)
    requires EndsFirstLine(s, k)
    ensures LineEnd(s) == k
  {
    LineEndSpec(s);
  }

  /**
   * The lines Python yields when iterating over translated text: each ends with
   * its `\n`, except a last line the text does not terminate.
   */
  function Lines(s: string): (ls: seq<string>)
    ensures ls == [] <==> s == []
    ensures |ls| <= |s|
    decreases |s|
  {
    if s == [] then [] else [s[..LineEnd(s)]] + Lines(s[LineEnd(s)..])
  }

  /** Concatenation of lines. */
  function Concat(ls: seq<string>): string {
    if ls == [] then [] else ls[0] + Concat(ls[1..])
  }

  /** Reading lines loses nothing: the lines concatenate back to the text. */
  lemma {:induction false} ConcatLines(s: string)
    ensures Concat(Lines(s)) == s
    decreases |s|
  {
    if s != [] {
      var k := LineEnd(s);
      var head, tail := s[..k], s[k..];
      var rest := Lines(tail);
      ConcatLines(tail);
      assert Lines(s) == [head] + rest;
      ConcatCons(head, rest);
      SliceJoin(s, k);
    }
  }

  /** Cutting text at `k` and joining the two parts gives it back. */
  lemma SliceJoin(s: string, k: nat)
    requires k <= |s|
    ensures s[..k] + s[k..] == s
  {
  }

  /** Concatenating a line in front of others appends its text in front. */
  lemma ConcatCons(line: string, ls: seq<string>)
    ensures Concat([line] + ls) == line + Concat(ls)
  {
    var all := [line] + ls;
    assert all[0] == line && all[1..] == ls;
  }

  /**
   * How Python cuts text into lines: no line is empty, a line break occurs in a
   * line only as its last character, and every line but the last has one.
   */
  ghost predicate LineShaped(ls: seq<string>) {
    && (forall i :: 0 <= i < |ls| ==> ls[i] != [] && '\n' !in ls[i][..|ls[i]| - 1])
    && (forall i :: 0 <= i < |ls| - 1 ==> ls[i][|ls[i]| - 1] == '\n')
  }

  /** The lines of any text are shaped as Python yields them. */
  lemma {:induction false} LinesShaped(s: string)
    ensures LineShaped(Lines(s))
    decreases |s|
  {
    if s != [] {
      var k := LineEnd(s);
      var rest := Lines(s[k..]);
      LinesShaped(s[k..]);
      var ls := Lines(s);
      LineEndSpec(s);
      assert ls == [s[..k]] + rest;
      assert '\n' !in s[..k][..k - 1];
      assert rest != [] ==> k < |s| && s[..k][k - 1] == '\n';
      forall i | 1 <= i < |ls| ensures ls[i] == rest[i - 1] { }
    }
  }

  /** A newline-terminated prefix ends no later than its own first line. */
  lemma LineEndAppend(a: string, b: string)
    requires a != [] && a[|a| - 1] == '\n'
    ensures LineEnd(a + b) == LineEnd(a)
  {
    var k := LineEnd(a);
    LineEndSpec(a);
    assert a[k - 1] == '\n';
    LineEndUnique(a + b, k);
  }

  /** Text ending in a newline contributes its own lines, independent of what follows. */
  lemma {:induction false} LinesAppend(a: string, b: string)
    requires a == [] || a[|a| - 1] == '\n'
    ensures Lines(a + b) == Lines(a) + Lines(b)
    decreases |a|
  {
    if a == [] {
      assert a + b == b;
    } else {
      var k := LineEnd(a);
      var line, rest := a[..k], a[k..];
      LinesAppendFirst(a, b);
      assert rest == [] || rest[|rest| - 1] == '\n';
      LinesAppend(rest, b);
      ConsAppend(line, Lines(rest), Lines(b));
    }
  }

  /** The first line of newline-terminated text stays the first line when more text follows. */
  lemma LinesAppendFirst(a: string, b: string)
    requires a != [] && a[|a| - 1] == '\n'
    ensures Lines(a + b) == [a[..LineEnd(a)]] + Lines(a[LineEnd(a)..] + b)
  {
    var k := LineEnd(a);
    LineEndAppend(a, b);
    assert (a + b)[..k] == a[..k];
    assert (a + b)[k..] == a[k..] + b;
  }

  /** Putting one line in front of two runs of lines can be done before or after joining them. */
  lemma ConsAppend(line: string, first: seq<string>, second: seq<string>)
    ensures [line] + (first + second) == ([line] + first) + second
  {
  }

  /** One newline-terminated line with no other line break reads back as itself. */
  lemma LinesOfOneLine(s: string)
    requires '\n' !in s
    ensures Lines(s + "\n") == [s + "\n"]
  {
    var t := s + "\n";
    LineEndUnique(t, |t|);
    assert t[..|t|] == t && t[|t|..] == [];
  }

  /** Unterminated text with no line break reads as a single line. */
  lemma LinesOfUnterminated(s: string)
    requires s != [] && '\n' !in s
    ensures Lines(s) == [s]
  {
    LineEndUnique(s, |s|);
    assert s[..|s|] == s && s[|s|..] == [];
  }
}
