/** Variables as a shell script of exports, and how a POSIX shell reads them back. */
module ShellQuote {
  import opened Common
  import opened Text
  import opened Heredoc

  const EXPORT := "export "

  // ---------------------------------------------------------------- writing

  function ShQuote(s: string): string {
    "'" + ReplaceAll(s, "'", "'\\''") + "'"
  }

  function ExportLine(v: EnvVar): string {
    EXPORT + v.key + "=" + ShQuote(v.value) + "\n"
  }

  function Exports(vars: seq<EnvVar>): string {
    if vars == [] then "" else Exports(vars[..|vars| - 1]) + ExportLine(vars[|vars| - 1])
  }

  method WriteEnvSh(vars: seq<EnvVar>) returns (script: string)
    ensures script == Exports(vars)
  {
    script := "";
    for i := 0 to |vars|
      invariant script == Exports(vars[..i])
    {
      assert vars[..i + 1][..i] == vars[..i];
      script := script + ("export " + vars[i].key + "=" + ShQuote(vars[i].value) + "\n");
    }
    assert vars[..|vars|] == vars;
  }

  // ---------------------------------------------------------------- reading a word

  /** A word and what follows it; Broken when the quoting is unfinished or the shell would expand something. */
  datatype Word = Word(value: string, rest: string) | Broken

  /** The characters of section 2.2 that end a word when they are not quoted. */
  predicate EndsWord(c: char) {
    c in " \t\n|&;<>()"
  }

  /** The characters of section 2.2 that start an expansion, or a kind of quoting the writer never uses. */
  predicate Expands(c: char) {
    c in "$`\"*?[~#"
  }

  function Prefixed(s: string, w: Word): (r: Word)
    ensures r.Word? <==> w.Word?
    ensures r.Word? ==> r.rest == w.rest
  {
    match w
    case Word(value, rest) => Word(s + value, rest)
    case Broken => Broken
  }

  /** Section 2.2 of the POSIX Shell Command Language: outside quotes. */
  function ReadWord(s: string): (w: Word)
    ensures w.Word? ==> |w.rest| <= |s|
    decreases |s|
  {
    if s == "" || EndsWord(s[0]) then Word("", s)
    else if s[0] == '\'' then ReadQuoted(s[1..])
    else if s[0] == '\\' then ReadEscaped(s[1..])
    else if Expands(s[0]) then Broken
    else Prefixed([s[0]], ReadWord(s[1..]))
  }

  /** Section 2.2.1: a backslash keeps the next character, and with a newline it joins two lines. */
  function ReadEscaped(s: string): (w: Word)
    ensures w.Word? ==> |w.rest| <= |s|
    decreases |s|
  {
    if s == "" then Broken
    else if s[0] == '\n' then ReadWord(s[1..])
    else Prefixed([s[0]], ReadWord(s[1..]))
  }

  /** Section 2.2.2: everything up to the next single quote is literal. */
  function ReadQuoted(s: string): (w: Word)
    ensures w.Word? ==> |w.rest| <= |s|
    decreases |s|
  {
    if s == "" then Broken
    else if s[0] == '\'' then ReadWord(s[1..])
    else Prefixed([s[0]], ReadQuoted(s[1..]))
  }

  // ---------------------------------------------------------------- reading a script

  predicate NameChar(c: char, first: bool) {
    'a' <= c <= 'z' || 'A' <= c <= 'Z' || c == '_' || (!first && '0' <= c <= '9')
  }

  /** A name in the shell's sense. */
  predicate IsName(s: string) {
    s != "" && forall i :: 0 <= i < |s| ==> NameChar(s[i], i == 0)
  }

  /** The text before the first equals sign, if there is one. */
  function UpToEquals(s: string): (n: Option<nat>)
    ensures n.Some? ==> n.value < |s| && s[n.value] == '=' && '=' !in s[..n.value]
  {
    if s == "" then None
    else if s[0] == '=' then Some(0)
    else match UpToEquals(s[1..])
      case None => None
      case Some(n) =>
        assert s[..n + 1] == [s[0]] + s[1..][..n];
        Some(n + 1)
  }

  /** One `export NAME=word` a line and nothing else; None when the shell would see any other command. */
  function ReadScript(s: string): (vars: Option<seq<EnvVar>>)
    ensures vars.Some? ==> forall v :: v in vars.value ==> IsName(v.key)
    decreases |s|
  {
    if s == "" then Some([])
    else if !("export " <= s) then None
    else ReadAssignment(s[7..])
  }

  function ReadAssignment(s: string): (vars: Option<seq<EnvVar>>)
    ensures vars.Some? ==> forall v :: v in vars.value ==> IsName(v.key)
    decreases |s|
  {
    match UpToEquals(s)
    case None => None
    case Some(n) =>
      var word := ReadWord(s[n + 1..]);
      if !IsName(s[..n]) || word.Broken? || word.rest == "" || word.rest[0] != '\n' then None
      else
        match ReadScript(word.rest[1..])
        case None => None
        case Some(more) => Some([EnvVar(s[..n], word.value)] + more)
  }

  // ---------------------------------------------------------------- quoting is undone

  /** Quoting in one pass. */
  function Quoted(s: string): string {
    if s == "" then "" else (if s[0] == '\'' then "'\\''" else [s[0]]) + Quoted(s[1..])
  }

  lemma {:induction false} QuotedIsReplacing(s: string)
    ensures ReplaceAll(s, "'", "'\\''") == Quoted(s)
  {
    if s != "" {
      QuotedIsReplacing(s[1..]);
      assert "'" <= s <==> "'"[0] == s[0];
    }
  }

  lemma PrefixedTwice(a: string, b: string, w: Word)
    ensures Prefixed(a, Prefixed(b, w)) == Prefixed(a + b, w)
  {
    if w.Word? {
      Associates(a, b, w.value);
    }
  }

  /** The closing quote, an escaped quote and an opening quote are read as one quote. */
  lemma QuoteInQuotes(rest: string)
    ensures ReadQuoted("'\\''" + rest) == Prefixed("'", ReadQuoted(rest))
  {
    var s := "'\\''" + rest;
    assert s[1..] == "\\''" + rest;
    assert ("\\''" + rest)[1..] == "''" + rest;
    assert ("''" + rest)[1..] == "'" + rest;
    assert ("'" + rest)[1..] == rest;
    assert !EndsWord('\\') && !EndsWord('\'');
    assert ReadWord("'" + rest) == ReadQuoted(rest);
    assert ReadEscaped("''" + rest) == Prefixed("'", ReadQuoted(rest)) by { assert ("''" + rest)[0] == '\''; }
    assert ReadWord("\\''" + rest) == ReadEscaped("''" + rest) by { assert ("\\''" + rest)[0] == '\\'; }
  }

  lemma {:induction false} QuotedIsRead(s: string, rest: string)
    ensures ReadQuoted(Quoted(s) + ("'" + rest)) == Prefixed(s, ReadWord(rest))
  {
    var tail := "'" + rest;
    if s == "" {
      assert "" + tail == tail && tail[1..] == rest;
      assert ReadWord(rest).Word? ==> "" + ReadWord(rest).value == ReadWord(rest).value;
    } else {
      var code, more := if s[0] == '\'' then "'\\''" else [s[0]], Quoted(s[1..]);
      QuotedIsRead(s[1..], rest);
      Associates(code, more, tail);
      PrefixedTwice([s[0]], s[1..], ReadWord(rest));
      assert [s[0]] + s[1..] == s;
      if s[0] == '\'' {
        QuoteInQuotes(more + tail);
      } else {
        assert (code + (more + tail))[1..] == more + tail;
      }
    }
  }

  /** A quoted text is read as itself, and what follows it is read as if it stood alone. */
  lemma ShQuoteRoundTrip(s: string, rest: string)
    ensures ReadWord(ShQuote(s) + rest) == Prefixed(s, ReadWord(rest))
  {
    QuotedIsReplacing(s);
    QuotedIsRead(s, rest);
    QuotesAround(Quoted(s), rest);
    assert !EndsWord('\'');
  }

  lemma QuotesAround(inner: string, rest: string)
    ensures var s := "'" + inner + "'" + rest; s[0] == '\'' && s[1..] == inner + ("'" + rest)
  {
  }

  // ---------------------------------------------------------------- the script is undone

  lemma {:induction false} EqualsFound(key: string, rest: string)
    requires '=' !in key
    ensures UpToEquals(key + "=" + rest) == Some(|key|)
  {
    if key != "" {
      EqualsFound(key[1..], rest);
      assert (key + "=" + rest)[1..] == key[1..] + "=" + rest;
    }
  }

  function Onto(v: EnvVar, vars: Option<seq<EnvVar>>): Option<seq<EnvVar>> {
    if vars == None then None else Some([v] + vars.value)
  }

  lemma OneLineIsRead(v: EnvVar, rest: string)
    requires IsName(v.key)
    ensures ReadScript(ExportLine(v) + rest) == Onto(v, ReadScript(rest))
  {
    var after := ShQuote(v.value) + ("\n" + rest);
    var s := v.key + "=" + after;
    LineInParts(v, rest);
    assert (EXPORT + s)[|EXPORT|..] == s && EXPORT <= EXPORT + s;
    NameIsFound(v.key, after);
    ValueIsRead(v.value, rest);
    assert ("\n" + rest)[1..] == rest;
  }

  lemma LineInParts(v: EnvVar, rest: string)
    ensures ExportLine(v) + rest == EXPORT + (v.key + "=" + (ShQuote(v.value) + ("\n" + rest)))
  {
  }

  lemma NameIsFound(name: string, after: string)
    requires IsName(name)
    ensures var s := name + "=" + after;
            UpToEquals(s) == Some(|name|) && s[..|name|] == name && s[|name| + 1..] == after
  {
    assert '=' !in name;
    EqualsFound(name, after);
  }

  lemma ValueIsRead(value: string, rest: string)
    ensures ReadWord(ShQuote(value) + ("\n" + rest)) == Word(value, "\n" + rest)
  {
    ShQuoteRoundTrip(value, "\n" + rest);
    assert EndsWord('\n');
    assert value + "" == value;
  }

  function AllOnto(vars: seq<EnvVar>, more: Option<seq<EnvVar>>): Option<seq<EnvVar>> {
    if more == None then None else Some(vars + more.value)
  }

  lemma OntoAll(init: seq<EnvVar>, last: EnvVar, more: Option<seq<EnvVar>>)
    ensures AllOnto(init, Onto(last, more)) == AllOnto(init + [last], more)
  {
    if more.Some? {
      Associates(init, [last], more.value);
    }
  }

  lemma {:induction false} ExportsAreRead(vars: seq<EnvVar>, rest: string)
    requires forall v :: v in vars ==> IsName(v.key)
    ensures ReadScript(Exports(vars) + rest) == AllOnto(vars, ReadScript(rest))
    decreases |vars|
  {
    if vars == [] {
      assert Exports(vars) + rest == rest;
      assert ReadScript(rest).Some? ==> vars + ReadScript(rest).value == ReadScript(rest).value;
    } else {
      var init, last := vars[..|vars| - 1], vars[|vars| - 1];
      ExportsAreRead(init, ExportLine(last) + rest);
      OneLineIsRead(last, rest);
      Associates(Exports(init), ExportLine(last), rest);
      OntoAll(init, last, ReadScript(rest));
      assert vars == init + [last];
    }
  }

  /** Sourcing the script sets exactly the variables written, whatever their values, iff every key is a shell name. */
  lemma ScriptRoundTripIff(vars: seq<EnvVar>)
    ensures ReadScript(Exports(vars)) == Some(vars) <==> forall v :: v in vars ==> IsName(v.key)
  {
    if forall v :: v in vars ==> IsName(v.key) {
      ExportsAreRead(vars, "");
      assert Exports(vars) + "" == Exports(vars);
      assert vars + [] == vars;
    }
  }
}
