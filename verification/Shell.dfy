/** The seeder's shell command, and a reader for the part of the POSIX shell language
    that decides how such a command splits into words: backslash (section 2.2.1 of the
    Shell Command Language, POSIX.1-2017), single quotes (section 2.2.2) and blanks. */
module Shell {

  function Escape(s: string): string {
    if s == "" then ""
    else if s[0] == '\'' then "'\\''" + Escape(s[1..])
    else [s[0]] + Escape(s[1..])
  }

  /** s as one single-quoted shell word. */
  function SingleQuote(s: string): string { "'" + Escape(s) + "'" }

  /** The copy loop of the directory form, up to the quoted target. */
  const ENTRY_LOOP := "\nfor e in .[!.]* ..?* *; do [ -e \"$e\" ] || continue; cp -an \"$e\" "

  predicate CopiesContents(from: string) {
    from == "." || (|from| >= 2 && from[|from| - 2..] == "/.")
  }

  function SeedScript(from: string, stagingMountPath: string): string {
    var src := SingleQuote(from);
    var dst := SingleQuote(stagingMountPath + "/");
    if CopiesContents(from) then "set -e\ncd " + src + ENTRY_LOOP + dst + "; done"
    else "cp -an " + src + " " + dst
  }

  /** The words a command line splits into; Refused when it needs more of the shell
      than quoting and splitting, or cannot be passed to a shell at all. */
  datatype Words = Split(words: seq<string>) | Refused

  /** Characters that mean something else when they stand unquoted. */
  predicate Special(c: char) {
    || c == '|' || c == '&' || c == ';' || c == '<' || c == '>' || c == '(' || c == ')'
    || c == '$' || c == '`' || c == '"' || c == '\n' || c == '*' || c == '?' || c == '['
    || c == '#' || c == '~' || c == '=' || c == '%' || c == '\0'
  }

  predicate NulFree(s: string) { '\0' !in s }

  /** The characters collected so far for the word being read. */
  datatype Partial = NoWord | Word(text: string)

  function Text(w: Partial): string { if w.Word? then w.text else "" }

  function Finish(w: Partial, rest: Words): Words {
    if rest.Split? && w.Word? then Split([w.text] + rest.words) else rest
  }

  /** Reading outside quotes. */
  function ReadPlain(s: string, w: Partial): Words
    decreases |s|
  {
    if s == "" then Finish(w, Split([]))
    else if s[0] == '\'' then ReadQuoted(s[1..], Text(w))
    else if s[0] == '\\' then
      if |s| == 1 || s[1] == '\0' then Refused
      else if s[1] == '\n' then ReadPlain(s[2..], w)
      else ReadPlain(s[2..], Word(Text(w) + [s[1]]))
    else if s[0] == ' ' || s[0] == '\t' then Finish(w, ReadPlain(s[1..], NoWord))
    else if Special(s[0]) then Refused
    else ReadPlain(s[1..], Word(Text(w) + [s[0]]))
  }

  /** Reading inside single quotes. */
  function ReadQuoted(s: string, text: string): Words
    decreases |s|
  {
    if s == "" || s[0] == '\0' then Refused
    else if s[0] == '\'' then ReadPlain(s[1..], Word(text))
    else ReadQuoted(s[1..], text + [s[0]])
  }

  lemma ReadQuotedStep(c: char, s: string, text: string)
    requires c != '\'' && c != '\0'
    ensures ReadQuoted([c] + s, text) == ReadQuoted(s, text + [c])
  {
    assert ([c] + s)[1..] == s;
  }

  lemma ReadEscapedQuote(s: string, text: string)
    ensures ReadQuoted("'\\''" + s, text) == ReadQuoted(s, text + "'")
  {
    var line := "'\\''" + s;
    assert line[1..] == "\\''" + s;
    assert line[1..][2..] == "'" + s;
    assert ("'" + s)[1..] == s;
    assert ReadPlain("'" + s, Word(text + "'")) == ReadQuoted(s, text + "'");
  }

  lemma {:induction false} ReadEscaped(s: string, rest: string, text: string)
    ensures ReadQuoted(Escape(s) + "'" + rest, text)
         == if NulFree(s) then ReadPlain(rest, Word(text + s)) else Refused
  {
    if s == "" {
      assert Escape(s) + "'" + rest == "'" + rest;
      assert ("'" + rest)[1..] == rest;
      assert text + s == text;
    } else {
      var c, tail := s[0], s[1..];
      var after := Escape(tail) + "'" + rest;
      assert text + s == text + [c] + tail;
      assert NulFree(s) <==> c != '\0' && NulFree(tail);
      ReadEscaped(tail, rest, text + [c]);
      if c == '\'' {
        assert Escape(s) + "'" + rest == "'\\''" + after;
        ReadEscapedQuote(after, text);
      } else {
        assert Escape(s) + "'" + rest == [c] + after;
        if c != '\0' {
          ReadQuotedStep(c, after, text);
        }
      }
    }
  }

  /** Whatever follows, a quoted string is read as exactly its own characters, and it
      neither ends the word nor the command. */
  lemma ReadSingleQuote(s: string, rest: string)
    ensures ReadPlain(SingleQuote(s) + rest, NoWord)
         == if NulFree(s) then ReadPlain(rest, Word(s)) else Refused
  {
    var line := SingleQuote(s) + rest;
    assert line[1..] == Escape(s) + "'" + rest;
    ReadEscaped(s, rest, "");
    assert "" + s == s;
  }

  /** Quoting and reading back is the identity on exactly the NUL-free strings. */
  lemma QuotedIsOneWord(s: string)
    ensures ReadPlain(SingleQuote(s), NoWord) == Split([s]) <==> NulFree(s)
  {
    ReadSingleQuote(s, "");
    assert SingleQuote(s) + "" == SingleQuote(s);
  }

  predicate Plain(c: char) {
    c != '\'' && c != '\\' && c != ' ' && c != '\t' && !Special(c)
  }

  lemma ReadBlank(s: string, w: Partial)
    ensures ReadPlain(" " + s, w) == Finish(w, ReadPlain(s, NoWord))
  {
    assert (" " + s)[1..] == s;
  }

  lemma {:induction false} ReadLetters(letters: string, s: string, text: string)
    requires forall i :: 0 <= i < |letters| ==> Plain(letters[i])
    ensures ReadPlain(letters + " " + s, Word(text)) == Finish(Word(text + letters), ReadPlain(s, NoWord))
  {
    if letters == "" {
      assert letters + " " + s == " " + s;
      ReadBlank(s, Word(text));
      assert text + letters == text;
    } else {
      var line := letters + " " + s;
      assert line[1..] == letters[1..] + " " + s;
      ReadLetters(letters[1..], s, text + [letters[0]]);
      assert text + [letters[0]] + letters[1..] == text + letters;
    }
  }

  lemma ReadWord(letters: string, s: string)
    requires letters != "" && forall i :: 0 <= i < |letters| ==> Plain(letters[i])
    ensures ReadPlain(letters + " " + s, NoWord) == Finish(Word(letters), ReadPlain(s, NoWord))
  {
    var line, first := letters + " " + s, [letters[0]];
    assert line[1..] == letters[1..] + " " + s;
    assert Text(NoWord) + first == first;
    assert ReadPlain(line, NoWord) == ReadPlain(line[1..], Word(first));
    ReadLetters(letters[1..], s, first);
    assert first + letters[1..] == letters;
  }

  lemma ReadTwoQuoted(a: string, b: string)
    ensures ReadPlain(SingleQuote(a) + (" " + SingleQuote(b)), NoWord)
         == if NulFree(a) && NulFree(b) then Split([a, b]) else Refused
  {
    ReadSingleQuote(a, " " + SingleQuote(b));
    ReadBlank(SingleQuote(b), Word(a));
    ReadSingleQuote(b, "");
    assert SingleQuote(b) + "" == SingleQuote(b);
  }

  /** The bare form runs cp on the two configured paths and on nothing else, for every
      pair of paths a shell can be given. */
  lemma SeedScriptWords(from: string, stagingMountPath: string)
    requires !CopiesContents(from)
    ensures ReadPlain(SeedScript(from, stagingMountPath), NoWord)
         == if NulFree(from) && NulFree(stagingMountPath)
            then Split(["cp", "-an", from, stagingMountPath + "/"]) else Refused
  {
    var dst := stagingMountPath + "/";
    var paths := SingleQuote(from) + (" " + SingleQuote(dst));
    ReadTwoQuoted(from, dst);
    assert NulFree(dst) <==> NulFree(stagingMountPath);
    var parsed := ReadPlain(paths, NoWord);
    SeedScriptReads(from, stagingMountPath, paths);
    assert Finish(Word("-an"), parsed) == if parsed.Split? then Split(["-an"] + parsed.words) else Refused;
  }

  lemma SeedScriptReads(from: string, stagingMountPath: string, paths: string)
    requires !CopiesContents(from)
    requires paths == SingleQuote(from) + (" " + SingleQuote(stagingMountPath + "/"))
    ensures ReadPlain(SeedScript(from, stagingMountPath), NoWord)
         == Finish(Word("cp"), Finish(Word("-an"), ReadPlain(paths, NoWord)))
  {
    var flagged := "-an" + " " + paths;
    assert "cp -an " == "cp" + " " + "-an" + " ";
    assert SeedScript(from, stagingMountPath) == "cp -an " + paths;
    assert "cp -an " + paths == "cp" + " " + flagged;
    ReadWord("cp", flagged);
    ReadWord("-an", paths);
  }
}
