// Single-quoting of a command's words, l_builtin/src/cmd_run.rs, and the shell that undoes it:
// sections 2.2.1, 2.2.2 and 2.3 of the POSIX Shell Command Language (XCU).

module ShellQuote {
  import opened Bytes
  import opened Databases

  const TAB: byte := 9
  const NEWLINE: byte := 10
  const SPACE: byte := 32
  const HASH: byte := 35
  const QUOTE: byte := 39
  const BACKSLASH: byte := 92

  // ----- Quoting -----

  function Escaped(word: seq<byte>): seq<byte> {
    if word == [] then []
    else (if word[0] == QUOTE then [QUOTE, BACKSLASH, QUOTE, QUOTE] else [word[0]]) + Escaped(word[1..])
  }

  function Quoted(word: seq<byte>): seq<byte> {
    [QUOTE] + Escaped(word) + [QUOTE]
  }

  function Joined(words: seq<CString>): seq<byte> {
    if words == [] then []
    else
      var n := |words| - 1;
      Joined(words[..n]) + (if n > 0 then [SPACE] else []) + Quoted(words[n])
  }

  lemma {:induction false} EscapedSnoc(word: seq<byte>, b: byte)
    ensures Escaped(word + [b]) == Escaped(word) + Escaped([b])
  {
    if word == [] {
      assert word + [b] == [b];
    } else {
      assert (word + [b])[1..] == word[1..] + [b];
      EscapedSnoc(word[1..], b);
    }
  }

  lemma JoinedSnoc(words: seq<CString>, word: CString)
    ensures Joined(words + [word]) == Joined(words) + (if words != [] then [SPACE] else []) + Quoted(word)
  {
    var more := words + [word];
    assert more[..|more| - 1] == words;
  }

  method BuildEvalCommand(args: seq<CString>) returns (buf: seq<byte>)
    ensures buf == Joined(args) + [0]
  {
    buf := [];
    for i := 0 to |args|
      invariant buf == Joined(args[..i])
    {
      JoinedSnoc(args[..i], args[i]);
      assert args[..i + 1] == args[..i] + [args[i]];
      if i > 0 { buf := buf + [SPACE]; }
      buf := PushQuoted(buf, args[i]);
    }
    assert args[..|args|] == args;
    buf := buf + [0];
  }

  /** One word of the loop. */
  method PushQuoted(before: seq<byte>, word: CString) returns (buf: seq<byte>)
    ensures buf == before + Quoted(word)
  {
    buf := before + [QUOTE];
    for j := 0 to |word|
      invariant buf == before + [QUOTE] + Escaped(word[..j])
    {
      EscapedSnoc(word[..j], word[j]);
      assert word[..j + 1] == word[..j] + [word[j]];
      assert Escaped([word[j]]) == if word[j] == QUOTE then [QUOTE, BACKSLASH, QUOTE, QUOTE] else [word[j]];
      if word[j] == QUOTE {
        buf := buf + [QUOTE, BACKSLASH, QUOTE, QUOTE];
      } else {
        buf := buf + [word[j]];
      }
    }
    assert word[..|word|] == word;
    buf := buf + [QUOTE];
  }

  // ----- The shell -----

  /** The string that a C pointer to this buffer denotes. */
  function CStringOf(buf: seq<byte>): seq<byte> {
    if buf == [] || buf[0] == 0 then [] else [buf[0]] + CStringOf(buf[1..])
  }

  /** `| & ; < > ( ) $`, back and double quote, `* ? [ ~ = % { } !` and newline: more than a word when not quoted. */
  predicate IsSpecial(b: byte) {
    b in {124, 38, 59, 60, 62, 40, 41, 36, 96, 34, 42, 63, 91, 126, 61, 37, 123, 125, 33, NEWLINE}
  }

  function Ended(words: seq<seq<byte>>, current: Option<seq<byte>>): seq<seq<byte>> {
    if current.Some? then words + [current.value] else words
  }

  function Begun(current: Option<seq<byte>>): seq<byte> {
    if current.Some? then current.value else []
  }

  /**
   * The words of the rest of a command line after token recognition and quote removal; None if
   * there is an open quote or anything special that is not quoted.
   */
  function Tokens(s: seq<byte>, words: seq<seq<byte>>, current: Option<seq<byte>>, quoted: bool)
    : Option<seq<seq<byte>>>
  {
    if s == [] then
      if quoted then None else Some(Ended(words, current))
    else if quoted then
      if s[0] == QUOTE then Tokens(s[1..], words, current, false)
      else Tokens(s[1..], words, Some(Begun(current) + [s[0]]), true)
    else if s[0] == QUOTE then Tokens(s[1..], words, Some(Begun(current)), true)
    else if s[0] == BACKSLASH then
      if |s| == 1 then None
      else if s[1] == NEWLINE then Tokens(s[2..], words, current, false)
      else Tokens(s[2..], words, Some(Begun(current) + [s[1]]), false)
    else if s[0] == SPACE || s[0] == TAB then Tokens(s[1..], Ended(words, current), None, false)
    else if IsSpecial(s[0]) || (s[0] == HASH && current.None?) then None
    else Tokens(s[1..], words, Some(Begun(current) + [s[0]]), false)
  }

  function Words(command: seq<byte>): Option<seq<seq<byte>>> {
    Tokens(command, [], None, false)
  }

  // ----- The round trip -----

  lemma {:induction false} BodyRead(word: seq<byte>, rest: seq<byte>, words: seq<seq<byte>>, current: seq<byte>)
    ensures Tokens(Escaped(word) + [QUOTE] + rest, words, Some(current), true)
            == Tokens(rest, words, Some(current + word), false)
  {
    var s := Escaped(word) + [QUOTE] + rest;
    if word == [] {
      assert s[1..] == rest;
      assert current + word == current;
    } else {
      var tail := Escaped(word[1..]) + [QUOTE] + rest;
      BodyRead(word[1..], rest, words, current + [word[0]]);
      assert current + word == current + [word[0]] + word[1..];
      if word[0] == QUOTE {
        EscapedQuoteRead(tail, words, current);
        assert s == [QUOTE, BACKSLASH, QUOTE, QUOTE] + tail;
      } else {
        assert s[1..] == tail;
      }
    }
  }

  /** Close, escaped quote, reopen: one quote more in the word. */
  lemma EscapedQuoteRead(tail: seq<byte>, words: seq<seq<byte>>, current: seq<byte>)
    ensures Tokens([QUOTE, BACKSLASH, QUOTE, QUOTE] + tail, words, Some(current), true)
            == Tokens(tail, words, Some(current + [QUOTE]), true)
  {
    var s := [QUOTE, BACKSLASH, QUOTE, QUOTE] + tail;
    assert s[1..][2..] == [QUOTE] + tail;
    assert s[1..] == [BACKSLASH, QUOTE] + ([QUOTE] + tail);
    assert Tokens(s[1..], words, Some(current), false) == Tokens([QUOTE] + tail, words, Some(current + [QUOTE]), false);
    assert ([QUOTE] + tail)[1..] == tail;
  }

  lemma QuotedRead(word: seq<byte>, rest: seq<byte>, words: seq<seq<byte>>)
    ensures Tokens(Quoted(word) + rest, words, None, false) == Tokens(rest, words, Some(word), false)
  {
    var body := Escaped(word) + [QUOTE] + rest;
    assert (Quoted(word) + rest)[1..] == body;
    BodyRead(word, rest, words, []);
    assert [] + word == word;
  }

  lemma JoinedLast(words: seq<CString>, rest: seq<byte>)
    requires |words| > 1
    ensures Joined(words) + rest
            == Joined(words[..|words| - 1]) + ([SPACE] + (Quoted(words[|words| - 1]) + rest))
  {
    var front, last := Joined(words[..|words| - 1]), Quoted(words[|words| - 1]);
    assert Joined(words) == front + [SPACE] + last;
    Regroup(front, [SPACE], last, rest);
  }

  lemma JoinedOne(words: seq<CString>)
    requires |words| == 1
    ensures Joined(words) == Quoted(words[0])
  {
    assert words[..0] == [];
  }

  /** A blank ends the current word. */
  lemma BlankRead(rest: seq<byte>, words: seq<seq<byte>>, word: seq<byte>)
    ensures Tokens([SPACE] + rest, words, Some(word), false) == Tokens(rest, words + [word], None, false)
  {
    assert ([SPACE] + rest)[1..] == rest;
  }

  /** The last word, after a blank. */
  lemma LastRead(more: seq<seq<byte>>, last: seq<byte>, rest: seq<byte>)
    requires more != []
    ensures Tokens([SPACE] + (Quoted(last) + rest), more[..|more| - 1], Some(more[|more| - 1]), false)
            == Tokens(rest, more, Some(last), false)
  {
    BlankRead(Quoted(last) + rest, more[..|more| - 1], more[|more| - 1]);
    assert more[..|more| - 1] + [more[|more| - 1]] == more;
    QuotedRead(last, rest, more);
  }

  lemma {:induction false} JoinedRead(words: seq<CString>, rest: seq<byte>)
    requires words != []
    ensures Tokens(Joined(words) + rest, [], None, false)
            == Tokens(rest, words[..|words| - 1], Some(words[|words| - 1]), false)
  {
    var more, last := words[..|words| - 1], words[|words| - 1];
    if more == [] {
      JoinedOne(words);
      QuotedRead(last, rest, more);
    } else {
      JoinedLast(words, rest);
      JoinedRead(more, [SPACE] + (Quoted(last) + rest));
      LastRead(more, last, rest);
    }
  }

  lemma {:induction false} EscapedNulFree(word: seq<byte>)
    requires 0 !in word
    ensures 0 !in Escaped(word)
  {
    if word != [] { EscapedNulFree(word[1..]); }
  }

  lemma {:induction false} JoinedNulFree(words: seq<CString>)
    ensures 0 !in Joined(words)
  {
    if words != [] {
      EscapedNulFree(words[|words| - 1]);
      JoinedNulFree(words[..|words| - 1]);
    }
  }

  lemma {:induction false} StopsAtNul(s: seq<byte>)
    requires 0 !in s
    ensures CStringOf(s + [0]) == s
  {
    if s != [] {
      StopsAtNul(s[1..]);
      assert (s + [0])[1..] == s[1..] + [0];
    }
  }

  lemma EndRead(words: seq<seq<byte>>, word: seq<byte>)
    ensures Tokens([], words, Some(word), false) == Some(words + [word])
  {
  }

  lemma WordsOfJoined(words: seq<CString>)
    ensures Words(Joined(words)) == Some(words)
  {
    if words != [] {
      var most, last := words[..|words| - 1], words[|words| - 1];
      JoinedRead(words, []);
      EndRead(most, last);
      assert Joined(words) + [] == Joined(words);
      assert most + [last] == words;
    }
  }

  /** The shell reads back the same words, in order: empty ones, quotes, blanks and newlines included. */
  lemma QuotingRoundTrip(words: seq<CString>)
    ensures Words(CStringOf(Joined(words) + [0])) == Some(words)
  {
    JoinedNulFree(words);
    StopsAtNul(Joined(words));
    WordsOfJoined(words);
  }
}
