/**
 Quoting for a POSIX shell, against the quoting rules of the POSIX Shell Command Language,
 sections 2.2.2 (single quotes) and 2.2.3 (double quotes): the shell reads back exactly the
 word that was quoted.
 */
module ShellQuote {
  import opened Common

  /** The text of an argument; bytes that are not UTF-8 have no characters. */
  datatype Text = Characters(chars: string) | NotUtf8

  /** Each single quote becomes '"'"' : close, a double-quoted quote, open again. */
  function Escaped(v: string): string {
    if v == "" then "" else (if v[0] == '\'' then "'\"'\"'" else [v[0]]) + Escaped(v[1..])
  }

  function Quoted(v: string): string {
    "'" + Escaped(v) + "'"
  }

  /** quotePOSIXShellArgument; `printable` is unicode.IsPrint. */
  method Quote(value: Text, printable: char -> bool) returns (r: Option<string>)
    ensures r.Some? <==> value.Characters? && '\0' !in value.chars && forall c :: c in value.chars ==> printable(c)
    ensures r.Some? ==> r.value == Quoted(value.chars) && ReadWords(r.value) == Some([value.chars])
  {
    if value.NotUtf8? { return None; }
    var v := value.chars;
    if '\0' in v { return None; }
    var i := 0;
    while i < |v|
      invariant 0 <= i <= |v|
      invariant forall j :: 0 <= j < i ==> printable(v[j])
    {
      if !printable(v[i]) { return None; }
      i := i + 1;
    }
    QuotedIsOneWord(v);
    r := Some("'" + Escaped(v) + "'");
  }

  // ---- the shell's side -------------------------------------------------------------------------

  datatype Mode = Outside | InSingle | InDouble

  /** Unquoted characters that mean themselves in an argument; the others are operators, expansions, patterns,
      comments or escapes, of which this reader knows only that they are not plain. */
  predicate Plain(c: char) {
    'a' <= c <= 'z' || 'A' <= c <= 'Z' || '0' <= c <= '9' || c in "-_./:,+@%="
  }

  function Flush(word: Option<string>, words: seq<string>): seq<string> {
    if word.Some? then words + [word.value] else words
  }

  function Append(word: Option<string>, c: char): Option<string> {
    Some((if word.Some? then word.value else "") + [c])
  }

  /** The words of a command line, or None if it has an unquoted special character, an expansion
      inside double quotes, or an open quote. `word` is the word being read: quotes begin one. */
  function Scan(s: string, mode: Mode, word: Option<string>, words: seq<string>): Option<seq<string>>
    decreases |s|
  {
    if s == "" then (if mode.Outside? then Some(Flush(word, words)) else None)
    else
      var c, rest := s[0], s[1..];
      match mode
      case InSingle =>
        if c == '\'' then Scan(rest, Outside, word, words) else Scan(rest, InSingle, Append(word, c), words)
      case InDouble =>
        if c == '"' then Scan(rest, Outside, word, words)
        else if c in "$`\\" then None
        else Scan(rest, InDouble, Append(word, c), words)
      case Outside =>
        if c == ' ' || c == '\t' then Scan(rest, Outside, None, Flush(word, words))
        else if c == '\'' then Scan(rest, InSingle, Some(if word.Some? then word.value else ""), words)
        else if c == '"' then Scan(rest, InDouble, Some(if word.Some? then word.value else ""), words)
        else if Plain(c) then Scan(rest, Outside, Append(word, c), words)
        else None
  }

  function ReadWords(s: string): Option<seq<string>> {
    Scan(s, Outside, None, [])
  }

  /** From inside single quotes, the escaped text and the closing quote add exactly the text to
      the word, whatever follows. */
  lemma {:induction false} ScanEscaped(v: string, rest: string, word: string, words: seq<string>)
    ensures Scan(Escaped(v) + "'" + rest, InSingle, Some(word), words) == Scan(rest, Outside, Some(word + v), words)
    decreases |v|
  {
    hide Scan;
    if v == "" {
      assert Escaped(v) + "'" + rest == "'" + rest && word + v == word;
      ScanClose(rest, word, words);
    } else {
      var tail := Escaped(v[1..]) + "'" + rest;
      assert word + [v[0]] + v[1..] == word + v;
      ScanEscaped(v[1..], rest, word + [v[0]], words);
      if v[0] == '\'' {
        assert Escaped(v) + "'" + rest == "'\"'\"'" + tail;
        ScanQuote(tail, word, words);
      } else {
        assert Escaped(v) + "'" + rest == [v[0]] + tail;
        ScanOther(v[0], tail, word, words);
      }
    }
  }

  lemma ScanClose(rest: string, word: string, words: seq<string>)
    ensures Scan("'" + rest, InSingle, Some(word), words) == Scan(rest, Outside, Some(word), words)
  {
    assert ("'" + rest)[1..] == rest;
  }

  lemma ScanOther(c: char, tail: string, word: string, words: seq<string>)
    requires c != '\''
    ensures Scan([c] + tail, InSingle, Some(word), words) == Scan(tail, InSingle, Some(word + [c]), words)
  {
    assert ([c] + tail)[1..] == tail;
  }

  lemma ScanQuote(tail: string, word: string, words: seq<string>)
    ensures Scan("'\"'\"'" + tail, InSingle, Some(word), words) == Scan(tail, InSingle, Some(word + "'"), words)
  {
    var s1, s2, s3, s4 := "\"'\"'" + tail, "'\"'" + tail, "\"'" + tail, "'" + tail;
    var s0 := "'\"'\"'" + tail;
    assert s0[1..] == s1 && s1[1..] == s2 && s2[1..] == s3 && s3[1..] == s4 && s4[1..] == tail;
    assert Scan(s0, InSingle, Some(word), words) == Scan(s1, Outside, Some(word), words);
    assert Scan(s1, Outside, Some(word), words) == Scan(s2, InDouble, Some(word), words);
    assert Scan(s2, InDouble, Some(word), words) == Scan(s3, InDouble, Some(word + "'"), words);
    assert Scan(s3, InDouble, Some(word + "'"), words) == Scan(s4, Outside, Some(word + "'"), words);
    assert Scan(s4, Outside, Some(word + "'"), words) == Scan(tail, InSingle, Some(word + "'"), words);
  }

  /** A quoted argument adds its text to the word before it, if any, whatever follows. */
  lemma ScanQuoted(v: string, rest: string, word: Option<string>, words: seq<string>)
    ensures Scan(Quoted(v) + rest, Outside, word, words) ==
            Scan(rest, Outside, Some((if word.Some? then word.value else "") + v), words)
  {
    var s := Quoted(v) + rest;
    assert s[1..] == Escaped(v) + "'" + rest;
    ScanEscaped(v, rest, if word.Some? then word.value else "", words);
  }

  /** Every text, the empty one and one full of quotes included, is read back as one word. */
  lemma QuotedIsOneWord(v: string)
    ensures ReadWords(Quoted(v)) == Some([v])
  {
    ScanQuoted(v, "", None, []);
    assert Quoted(v) + "" == Quoted(v) && "" + v == v;
    assert [] + [v] == [v];
  }

  lemma {:induction false} ScanPlain(p: string, rest: string, word: string, words: seq<string>)
    requires forall i :: 0 <= i < |p| ==> Plain(p[i])
    ensures Scan(p + rest, Outside, Some(word), words) == Scan(rest, Outside, Some(word + p), words)
    decreases |p|
  {
    if p == "" {
      assert p + rest == rest && word + p == word;
    } else {
      assert (p + rest)[1..] == p[1..] + rest;
      assert word + [p[0]] + p[1..] == word + p;
      ScanPlain(p[1..], rest, word + [p[0]], words);
    }
  }

  /** What follows a readable command line and a blank is read as further words. */
  lemma {:induction false} ScanThen(a: string, b: string, mode: Mode, word: Option<string>, words: seq<string>)
    requires Scan(a, mode, word, words).Some?
    ensures Scan(a + " " + b, mode, word, words) == Scan(b, Outside, None, Scan(a, mode, word, words).value)
    decreases |a|
  {
    if a == "" {
      assert (a + " " + b)[1..] == b;
    } else {
      var c, rest := a[0], a[1..];
      assert (a + " " + b)[1..] == rest + " " + b;
      match mode
      case InSingle =>
        if c == '\'' {
          ScanThen(rest, b, Outside, word, words);
        } else {
          ScanThen(rest, b, InSingle, Append(word, c), words);
        }
      case InDouble =>
        if c == '"' {
          ScanThen(rest, b, Outside, word, words);
        } else {
          ScanThen(rest, b, InDouble, Append(word, c), words);
        }
      case Outside =>
        if c == ' ' || c == '\t' { ScanThen(rest, b, Outside, None, Flush(word, words)); }
        else if c == '\'' { ScanThen(rest, b, InSingle, Some(if word.Some? then word.value else ""), words); }
        else if c == '"' { ScanThen(rest, b, InDouble, Some(if word.Some? then word.value else ""), words); }
        else { ScanThen(rest, b, Outside, Append(word, c), words); }
    }
  }

  const FORCE := "--force"
  const CONFIRM := "--confirm-name="

  /** The hint the destroy preview prints. */
  function Hint(name: string): string {
    FORCE + " " + CONFIRM + Quoted(name)
  }

  lemma PlainWords()
    ensures forall i :: 0 <= i < |FORCE| ==> Plain(FORCE[i])
    ensures forall i :: 0 <= i < |CONFIRM| ==> Plain(CONFIRM[i])
  {
  }

  /** Added to any command line the shell can read, the hint adds exactly two arguments: the
      force flag and the confirmation of this very name. */
  lemma HintReadsBack(command: string, name: string)
    requires ReadWords(command).Some?
    ensures ReadWords(command + " " + Hint(name)) ==
            Some(ReadWords(command).value + ["--force", "--confirm-name=" + name])
  {
    var ws := ReadWords(command).value;
    PlainWords();
    ScanThen(command, Hint(name), Outside, None, []);
    ReadForce(CONFIRM + Quoted(name), ws);
    assert Hint(name) == FORCE + " " + (CONFIRM + Quoted(name));
    ReadConfirm(name, ws + [FORCE]);
    assert ws + [FORCE] + [CONFIRM + name] == ws + [FORCE, CONFIRM + name];
  }

  lemma ReadForce(rest: string, words: seq<string>)
    ensures Scan(FORCE + " " + rest, Outside, None, words) == Scan(rest, Outside, None, words + [FORCE])
  {
    PlainWords();
    var s := FORCE[1..] + (" " + rest);
    assert (FORCE + " " + rest)[1..] == s && (FORCE + " " + rest)[0] == '-';
    ScanPlain(FORCE[1..], " " + rest, "-", words);
    assert "-" + FORCE[1..] == FORCE;
    assert (" " + rest)[1..] == rest;
    assert "" + ['-'] == "-";
  }

  lemma ReadConfirm(name: string, words: seq<string>)
    ensures Scan(CONFIRM + Quoted(name), Outside, None, words) == Some(words + [CONFIRM + name])
  {
    PlainWords();
    var s := CONFIRM[1..] + (Quoted(name) + "");
    assert (CONFIRM + Quoted(name))[1..] == s && (CONFIRM + Quoted(name))[0] == '-';
    ScanPlain(CONFIRM[1..], Quoted(name) + "", "-", words);
    assert "-" + CONFIRM[1..] == CONFIRM;
    assert "" + ['-'] == "-";
    ScanQuoted(name, "", Some(CONFIRM), words);
  }
}
