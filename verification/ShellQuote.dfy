/**
 Quoting of a command line for `sh -c`, against the quoting rules of the shell: sections 2.2.1
 (backslash), 2.2.2 (single quotes) and 2.3 (token recognition) of the POSIX.1-2017 Shell
 Command Language.
 */
module ShellQuote {
  import opened Basics

  // ----- the shell's side -----

  /** Characters that mean something else to the shell when not quoted (section 2.2). */
  predicate IsSpecial(c: char)
  {
    c in {'|', '&', ';', '<', '>', '(', ')', '$', '`', '"', '\n', '*', '?', '[', '#', '~', '=', '%', '!', '{', '}'}
  }

  predicate IsBlank(c: char)
  {
    c == ' ' || c == '\t'
  }

  function Extend(word: Option<string>, c: char): Option<string>
  {
    Some((if word.Some? then word.value else "") + [c])
  }

  /** Splits `s` into words. `word` is the word being collected, `quoted` whether a single quote
      is open. `None`: an unquoted special character, a dangling backslash or an unclosed
      quote, so the text is not a plain list of words. */
  function Words(s: string, word: Option<string>, quoted: bool): Option<seq<string>>
    decreases |s|
  {
    if s == [] then
      if quoted then None else Some(if word.Some? then [word.value] else [])
    else if quoted then
      if s[0] == '\'' then Words(s[1..], word, false) else Words(s[1..], Extend(word, s[0]), true)
    else if s[0] == '\'' then
      Words(s[1..], if word.Some? then word else Some(""), true)
    else if s[0] == '\\' then
      if |s| == 1 then None
      else if s[1] == '\n' then Words(s[2..], word, false)
      else Words(s[2..], Extend(word, s[1]), false)
    else if IsBlank(s[0]) then
      var rest := Words(s[1..], None, false);
      if word.None? || rest.None? then rest else Some([word.value] + rest.value)
    else if IsSpecial(s[0]) then None
    else Words(s[1..], Extend(word, s[0]), false)
  }

  // ----- the manager's side -----

  /** Replaces every single quote by close-quote, escaped quote, open-quote. */
  function Escape(p: string): string
  {
    if p == [] then "" else (if p[0] == '\'' then "'\\''" else [p[0]]) + Escape(p[1..])
  }

  function Quote(p: string): string
  {
    "'" + Escape(p) + "'"
  }

  function Join(words: seq<string>): string
  {
    if words == [] then ""
    else if |words| == 1 then Quote(words[0])
    else Quote(words[0]) + ([' '] + Join(words[1..]))
  }

  /** Fills an array with the quoted words, then joins them with spaces. */
  method ShellJoin(exe: string, args: seq<string>) returns (line: string)
    ensures line == Join([exe] + args)
    ensures Words(line, None, false) == Some([exe] + args)
  {
    hide Words, Quote;
    var parts := [exe] + args;
    var quoted := new string[|parts|](_ => "");
    for i := 0 to |parts|
      invariant forall k :: 0 <= k < i ==> quoted[k] == Quote(parts[k])
    {
      quoted[i] := Quote(parts[i]);
    }
    line := quoted[|parts| - 1];
    var i := |parts| - 1;
    assert parts[i..] == [parts[i]];
    while i > 0
      invariant 0 <= i < |parts| && line == Join(parts[i..])
    {
      i := i - 1;
      assert parts[i..][1..] == parts[i + 1..];
      line := quoted[i] + ([' '] + line);
    }
    assert parts[0..] == parts;
    WordsOfJoin(parts);
  }

  // ----- single steps of the word splitter -----

  lemma QuotedChar(c: char, rest: string, w: string)
    requires c != '\''
    ensures Words([c] + rest, Some(w), true) == Words(rest, Some(w + [c]), true)
  {
    assert ([c] + rest)[1..] == rest;
  }

  lemma CloseQuote(rest: string, w: string)
    ensures Words(['\''] + rest, Some(w), true) == Words(rest, Some(w), false)
  {
    assert (['\''] + rest)[1..] == rest;
  }

  lemma OpenQuote(rest: string, w: Option<string>)
    ensures Words(['\''] + rest, w, false) == Words(rest, if w.Some? then w else Some(""), true)
  {
    assert (['\''] + rest)[1..] == rest;
  }

  lemma EscapedQuote(rest: string, w: string)
    ensures Words(['\\', '\''] + rest, Some(w), false) == Words(rest, Some(w + ['\'']), false)
  {
    assert (['\\', '\''] + rest)[2..] == rest;
  }

  lemma WordEnds(rest: string, w: string)
    ensures Words([' '] + rest, Some(w), false) ==
            var r := Words(rest, None, false); if r.None? then None else Some([w] + r.value)
  {
    assert ([' '] + rest)[1..] == rest;
  }

  // ----- reading back -----

  /** Inside quotes, the escaped text adds exactly the original text and closes the quote. */
  lemma {:induction false} WordsOfEscape(p: string, rest: string, w: string)
    ensures Words(Escape(p) + ['\''] + rest, Some(w), true) == Words(rest, Some(w + p), false)
    decreases |p|
  {
    hide Words, Escape;
    EscapeHead(p, rest);
    if p == [] {
      CloseQuote(rest, w);
      assert w + p == w;
    } else {
      var c, tail := p[0], Escape(p[1..]) + ['\''] + rest;
      if c == '\'' {
        var after := ['\\', '\''] + (['\''] + tail);
        CloseQuote(after, w);
        EscapedQuote(['\''] + tail, w);
        OpenQuote(tail, Some(w + [c]));
      } else {
        QuotedChar(c, tail, w);
      }
      WordsOfEscape(p[1..], rest, w + [c]);
      assert w + [c] + p[1..] == w + p;
    }
  }

  lemma EscapeHead(p: string, rest: string)
    ensures p == [] ==> Escape(p) + ['\''] + rest == ['\''] + rest
    ensures p != [] ==>
      var tail := Escape(p[1..]) + ['\''] + rest;
      Escape(p) + ['\''] + rest == if p[0] == '\'' then ['\''] + (['\\', '\''] + (['\''] + tail)) else [p[0]] + tail
  {
  }

  lemma WordsOfQuote(p: string, rest: string)
    ensures Words(Quote(p) + rest, None, false) == Words(rest, Some(p), false)
  {
    hide Words;
    assert Quote(p) + rest == ['\''] + (Escape(p) + ['\''] + rest);
    OpenQuote(Escape(p) + ['\''] + rest, None);
    WordsOfEscape(p, rest, "");
    assert "" + p == p;
  }

  lemma WordsOfOne(p: string)
    ensures Words(Quote(p), None, false) == Some([p])
  {
    assert Quote(p) + "" == Quote(p);
    WordsOfQuote(p, "");
  }

  /** The shell reads back exactly the words that were joined, whatever characters they hold. */
  lemma {:induction false} WordsOfJoin(words: seq<string>)
    requires words != []
    ensures Words(Join(words), None, false) == Some(words)
  {
    hide Words, Quote;
    assert words == [words[0]] + words[1..];
    if |words| == 1 {
      WordsOfOne(words[0]);
      assert words == [words[0]];
    } else {
      WordsOfQuote(words[0], [' '] + Join(words[1..]));
      WordEnds(Join(words[1..]), words[0]);
      WordsOfJoin(words[1..]);
    }
  }
}
