/** Appending variables to $GITHUB_ENV as heredocs, and reading them back. */
module Heredoc {
  import opened Common
  import opened Text

  const DELIMITER_PREFIX := "canton_localnet_env_"
  const DELIMITER_TRIES: nat := 8

  datatype EnvVar = EnvVar(key: string, value: string)

  // ---------------------------------------------------------------- writing

  /** The line that opens a heredoc. */
  function Header(v: EnvVar, delimiter: string): string {
    v.key + "<<" + delimiter
  }

  function Entry(v: EnvVar, delimiter: string): string {
    Header(v, delimiter) + "\n" + v.value + "\n" + delimiter + "\n"
  }

  function Written(vars: seq<EnvVar>, delimiter: string): string {
    if vars == [] then "" else Written(vars[..|vars| - 1], delimiter) + Entry(vars[|vars| - 1], delimiter)
  }

  /** What a random draw yields: lower-case hex. */
  type HexText = s: string | forall i :: 0 <= i < |s| ==> IsHexDigit(s[i]) witness ""

  ghost predicate Collides(vars: seq<EnvVar>, candidate: string) {
    exists i :: 0 <= i < |vars| && Contains(vars[i].value, candidate)
  }

  /** All the draws before the i-th collide, and the i-th is one too many, or fails, or collides with nothing. */
  ghost predicate StopsAt(vars: seq<EnvVar>, random: nat -> Option<HexText>, i: nat) {
    && i <= 8
    && (forall k: nat :: k < i ==> random(k).Some? && Collides(vars, DELIMITER_PREFIX + random(k).value))
    && (i == 8 || random(i) == None || !Collides(vars, DELIMITER_PREFIX + random(i).value))
  }

  /** `random(i)` is the i-th random draw, None when the source of randomness fails. */
  method GithubEnvDelimiter(vars: seq<EnvVar>, random: nat -> Option<HexText>) returns (delimiter: Option<string>)
    ensures exists i: nat :: StopsAt(vars, random, i) &&
              delimiter ==
                if i == 8 || random(i) == None then None else Some("canton_localnet_env_" + random(i).value)
    ensures delimiter.Some? ==> '\n' !in delimiter.value && !Collides(vars, delimiter.value)
  {
    for i := 0 to DELIMITER_TRIES
      invariant forall k: nat :: k < i ==> random(k).Some? && Collides(vars, DELIMITER_PREFIX + random(k).value)
    {
      var suffix := random(i);
      if suffix == None {
        assert StopsAt(vars, random, i);
        return None;
      }
      var candidate := DELIMITER_PREFIX + suffix.value;
      var collision := false;
      var j := 0;
      while j < |vars| && !collision
        invariant 0 <= j <= |vars|
        invariant collision ==> Collides(vars, candidate)
        invariant !collision ==> forall k :: 0 <= k < j ==> !Contains(vars[k].value, candidate)
      {
        collision := Contains(vars[j].value, candidate);
        j := j + 1;
      }
      if !collision {
        assert StopsAt(vars, random, i);
        return Some(candidate);
      }
    }
    assert StopsAt(vars, random, DELIMITER_TRIES);
    return None;
  }

  /** The draws decide where the search stops. */
  lemma StopsOnce(vars: seq<EnvVar>, random: nat -> Option<HexText>, i: nat, j: nat)
    requires StopsAt(vars, random, i) && StopsAt(vars, random, j)
    ensures i == j
  {
  }

  /** The file that $GITHUB_ENV names. */
  class EnvFile {
    var content: string

    constructor (existing: string)
      ensures content == existing
    {
      content := existing;
    }

    method Append(vars: seq<EnvVar>, random: nat -> Option<HexText>) returns (delimiter: Option<string>)
      modifies this
      ensures delimiter == None ==> content == old(content)
      ensures delimiter.Some? ==>
                content == old(content) + Written(vars, delimiter.value) && !Collides(vars, delimiter.value) &&
                exists i: nat :: random(i).Some? && delimiter.value == DELIMITER_PREFIX + random(i).value
      ensures delimiter.Some? && Settled(old(content)) ==>
                (Parse(content) == Some(Settlement(old(content)) + vars) <==> forall v :: v in vars ==> CleanKey(v.key))
      ensures delimiter.Some? && Settled(old(content)) && (forall v :: v in vars ==> CleanKey(v.key)) ==>
                Settled(content) && Settlement(content) == Settlement(old(content)) + vars
    {
      delimiter := GithubEnvDelimiter(vars, random);
      if delimiter == None {
        return None;
      }
      for i := 0 to |vars|
        invariant content == old(content) + Written(vars[..i], delimiter.value)
      {
        assert vars[..i + 1][..i] == vars[..i];
        content := content + Entry(vars[i], delimiter.value);
      }
      assert vars[..|vars|] == vars;
      if Settled(old(content)) {
        AppendedIsReadBackIff(old(content), vars, delimiter.value);
      }
    }
  }

  // ---------------------------------------------------------------- reading

  /** Where "<<" first occurs, or the length. */
  function Marker(line: string): (i: nat)
    ensures i <= |line| && (i < |line| ==> i + 1 < |line| && line[i] == '<' && line[i + 1] == '<')
    ensures forall k :: 0 <= k < i && k + 1 < |line| ==> line[k] != '<' || line[k + 1] != '<'
  {
    if |line| < 2 then |line|
    else if line[0] == '<' && line[1] == '<' then 0
    else 1 + Marker(line[1..])
  }

  /** Where `line` first occurs among `lines`, or their number. */
  function Position(lines: seq<string>, line: string): (i: nat)
    ensures i <= |lines| && (i < |lines| ==> lines[i] == line) && forall k :: 0 <= k < i ==> lines[k] != line
  {
    if lines == [] || lines[0] == line then 0 else 1 + Position(lines[1..], line)
  }

  function Prepend(vars: seq<EnvVar>, rest: Option<seq<EnvVar>>): Option<seq<EnvVar>> {
    if rest == None then None else Some(vars + rest.value)
  }

  /** A heredoc is opened by the first line. */
  predicate Opens(lines: seq<string>) {
    lines != [] && lines[0] != "" && Marker(lines[0]) < |lines[0]|
  }

  function Delimiter(lines: seq<string>): string
    requires Opens(lines)
  {
    lines[0][Marker(lines[0]) + 2..]
  }

  /** Where among the lines after the first the heredoc is closed, or their number. */
  function Closing(lines: seq<string>): (n: nat)
    requires Opens(lines)
    ensures n < |lines|
  {
    Position(lines[1..], Delimiter(lines))
  }

  function FirstVar(lines: seq<string>): EnvVar
    requires Opens(lines)
  {
    EnvVar(lines[0][..Marker(lines[0])], Join(lines[1..][..Closing(lines)]))
  }

  /** The runner's reading: blank lines aside, KEY<<DELIM, then lines up to one that is DELIM; None is a broken file. */
  function ParseLines(lines: seq<string>): Option<seq<EnvVar>>
    decreases |lines|
  {
    if lines == [] then Some([])
    else if lines[0] == "" then ParseLines(lines[1..])
    else if !Opens(lines) || Closing(lines) == |lines| - 1 then None
    else Prepend([FirstVar(lines)], ParseLines(lines[Closing(lines) + 2..]))
  }

  function Parse(content: string): Option<seq<EnvVar>> {
    ParseLines(Lines(content))
  }

  // ---------------------------------------------------------------- the round trip

  /** A key can be told from what follows it: no newline, and "<<" after it is the first "<<". */
  predicate CleanKey(key: string) {
    '\n' !in key && Marker(key + "<<") == |key|
  }

  /** The same, looking at the key alone. */
  lemma CleanKeyIff(key: string)
    ensures CleanKey(key) <==> '\n' !in key && Marker(key) == |key| && (key != "" ==> key[|key| - 1] != '<')
  {
    var line := key + "<<";
    assert forall k :: 0 <= k < |key| ==> line[k] == key[k];
    assert line[|key|] == '<' && line[|key| + 1] == '<';
  }

  lemma MarkerIs(line: string, m: nat)
    requires m + 1 < |line| && line[m] == '<' && line[m + 1] == '<'
    requires forall k :: 0 <= k < m ==> line[k] != '<' || line[k + 1] != '<'
    ensures Marker(line) == m
  {
  }

  lemma MarkerAfterCleanKey(key: string, delimiter: string)
    requires CleanKey(key)
    ensures Marker(key + "<<" + delimiter) == |key|
  {
    var short, line := key + "<<", key + "<<" + delimiter;
    forall k | 0 <= k < |key| ensures line[k] != '<' || line[k + 1] != '<' {
      assert line[k] == short[k] && line[k + 1] == short[k + 1];
    }
    MarkerIs(line, |key|);
  }

  lemma LinesOfEntry(v: EnvVar, delimiter: string, tail: string)
    requires '\n' !in v.key && '\n' !in delimiter
    ensures Lines(Entry(v, delimiter) + tail) == [Header(v, delimiter)] + (Lines(v.value) + ([delimiter] + Lines(tail)))
  {
    var head := Header(v, delimiter);
    var end := delimiter + "\n" + tail;
    SingleLine(head);
    SingleLine(delimiter);
    LinesOfConcat(head, v.value + "\n" + end);
    LinesOfConcat(v.value, end);
    LinesOfConcat(delimiter, tail);
    EntryInPieces(head, v.value, delimiter, tail);
  }

  lemma EntryInPieces(head: string, value: string, delimiter: string, tail: string)
    ensures head + "\n" + value + "\n" + delimiter + "\n" + tail ==
            head + "\n" + (value + "\n" + (delimiter + "\n" + tail))
  {
  }

  lemma PositionAfter(lines: seq<string>, delimiter: string, rest: seq<string>)
    requires delimiter !in lines
    ensures Position(lines + ([delimiter] + rest), delimiter) == |lines|
  {
    var all := lines + ([delimiter] + rest);
    assert all[|lines|] == delimiter;
    assert forall k :: 0 <= k < |lines| ==> all[k] == lines[k];
  }

  /** Reading one heredoc off the front of a list of lines. */
  lemma ParseOneHeredoc(key: string, delimiter: string, body: seq<string>, rest: seq<string>)
    requires CleanKey(key) && delimiter !in body
    ensures ParseLines([key + "<<" + delimiter] + (body + ([delimiter] + rest))) ==
              Prepend([EnvVar(key, Join(body))], ParseLines(rest))
  {
    var head, tail := key + "<<" + delimiter, body + ([delimiter] + rest);
    var lines := [head] + tail;
    MarkerAfterCleanKey(key, delimiter);
    PositionAfter(body, delimiter, rest);
    assert lines[0] == head && lines[1..] == tail;
    assert head[..|key|] == key && head[|key| + 2..] == delimiter;
    assert tail[..|body|] == body;
    assert lines[|body| + 2..] == rest;
  }

  lemma ParseOfEntry(v: EnvVar, delimiter: string, tail: string)
    requires CleanKey(v.key) && '\n' !in delimiter && !Contains(v.value, delimiter)
    ensures Parse(Entry(v, delimiter) + tail) == Prepend([v], Parse(tail))
  {
    LinesOfEntry(v, delimiter, tail);
    if delimiter in Lines(v.value) {
      LinesAreContained(v.value, delimiter);
    }
    ParseOneHeredoc(v.key, delimiter, Lines(v.value), Lines(tail));
    JoinUndoesLines(v.value);
  }

  lemma PrependTwice(a: seq<EnvVar>, b: seq<EnvVar>, rest: Option<seq<EnvVar>>)
    ensures Prepend(a, Prepend(b, rest)) == Prepend(a + b, rest)
  {
    if rest.Some? {
      assert a + (b + rest.value) == a + b + rest.value;
    }
  }

  /** What was appended is read as written, in front of whatever is appended later. */
  lemma {:induction false} AppendedIsReadBack(vars: seq<EnvVar>, delimiter: string, tail: string)
    requires '\n' !in delimiter && !Collides(vars, delimiter)
    requires forall v :: v in vars ==> CleanKey(v.key)
    ensures Parse(Written(vars, delimiter) + tail) == Prepend(vars, Parse(tail))
    decreases |vars|
  {
    if vars == [] {
      assert Written(vars, delimiter) + tail == tail;
      assert Parse(tail).Some? ==> vars + Parse(tail).value == Parse(tail).value;
    } else {
      var init, last := vars[..|vars| - 1], vars[|vars| - 1];
      assert vars == init + [last];
      assert forall i :: 0 <= i < |init| ==> init[i] == vars[i];
      AppendedIsReadBack(init, delimiter, Entry(last, delimiter) + tail);
      ParseOfEntry(last, delimiter, tail);
      PrependTwice(init, [last], Parse(tail));
      Associates(Written(init, delimiter), Entry(last, delimiter), tail);
    }
  }

  /** The text before the first "<<" of a line is a clean key. */
  lemma CutGivesCleanKey(line: string)
    requires '\n' !in line && Marker(line) < |line|
    ensures CleanKey(line[..Marker(line)])
  {
    var m := Marker(line);
    var key := line[..m];
    assert forall k :: 0 <= k < m ==> key[k] == line[k];
    assert Marker(key) == m;
    CleanKeyIff(key);
  }

  lemma {:induction false} ParsedKeysAreClean(lines: seq<string>, v: EnvVar)
    requires forall l :: l in lines ==> '\n' !in l
    requires ParseLines(lines).Some? && v in ParseLines(lines).value
    ensures CleanKey(v.key)
    decreases |lines|
  {
    if lines[0] == "" {
      ParsedKeysAreClean(lines[1..], v);
    } else {
      var marker := Marker(lines[0]);
      var key := lines[0][..marker];
      var n := Position(lines[1..], lines[0][marker + 2..]);
      if v.key == key {
        assert lines[0] in lines;
        CutGivesCleanKey(lines[0]);
      } else {
        ParsedKeysAreClean(lines[n + 2..], v);
      }
    }
  }

  /**
    Under a delimiter that no value contains, the file reads back as exactly the variables written, in
    order, with every newline of every value, if and only if every key is clean.
   */
  lemma RoundTripIff(vars: seq<EnvVar>, delimiter: string)
    requires '\n' !in delimiter && !Collides(vars, delimiter)
    ensures Parse(Written(vars, delimiter)) == Some(vars) <==> forall v :: v in vars ==> CleanKey(v.key)
  {
    if forall v :: v in vars ==> CleanKey(v.key) {
      AppendedIsReadBack(vars, delimiter, "");
      assert Written(vars, delimiter) + "" == Written(vars, delimiter);
      assert vars + [] == vars;
    } else if Parse(Written(vars, delimiter)) == Some(vars) {
      forall v | v in vars ensures CleanKey(v.key) {
        ParsedKeysAreClean(Lines(Written(vars, delimiter)), v);
      }
    }
  }

  // ---------------------------------------------------------------- a file that others have written to

  /** The lines of a text that a newline ends. */
  function Finished(content: string): seq<string> {
    Lines(content)[..|Lines(content)| - 1]
  }

  predicate EndsItsLine(content: string) {
    Lines(content)[|Lines(content)| - 1] == ""
  }

  /** Empty, or ended by a newline and with every heredoc closed by a line that a newline ends. */
  predicate Settled(content: string) {
    EndsItsLine(content) && ParseLines(Finished(content)).Some?
  }

  function Settlement(content: string): seq<EnvVar>
    requires Settled(content)
  {
    ParseLines(Finished(content)).value
  }

  lemma {:induction false} OpenLastLine(content: string)
    requires content != "" && content[|content| - 1] != '\n'
    ensures !EndsItsLine(content)
  {
    if |content| > 1 {
      OpenLastLine(content[1..]);
    } else {
      assert content[1..] == "" && Lines("") == [""];
    }
  }

  /** In terms of the text: only the empty text and one that ends in a newline end their lines. */
  lemma EndsItsLineIff(content: string)
    ensures EndsItsLine(content) <==> content == "" || content[|content| - 1] == '\n'
  {
    if content != "" {
      if content[|content| - 1] == '\n' {
        var init := content[..|content| - 1];
        assert content == init + "\n" + "";
        LinesOfConcat(init, "");
      } else {
        OpenLastLine(content);
      }
    }
  }

  lemma {:induction false} LinesAfterEnded(content: string, more: string)
    requires EndsItsLine(content)
    ensures Lines(content + more) == Finished(content) + Lines(more)
  {
    EndsItsLineIff(content);
    if content == "" {
      assert content + more == more;
    } else {
      var init := content[..|content| - 1];
      assert content == init + "\n" + "" && content + more == init + "\n" + more;
      LinesOfConcat(init, "");
      LinesOfConcat(init, more);
    }
  }

  lemma LinesInFull(content: string)
    requires EndsItsLine(content)
    ensures Lines(content) == Finished(content) + [""]
  {
    LinesAfterEnded(content, "");
    assert content + "" == content && Lines("") == [""];
  }

  /** Reading goes on after lines that read by themselves. */
  lemma {:induction false} ParseOverConcat(a: seq<string>, b: seq<string>)
    requires ParseLines(a).Some?
    ensures ParseLines(a + b) == Prepend(ParseLines(a).value, ParseLines(b))
    decreases |a|
  {
    if a == [] {
      assert a + b == b;
      PrependTwice([], [], ParseLines(b));
      PrependNothing(ParseLines(b));
    } else if a[0] == "" {
      assert (a + b)[0] == a[0] && (a + b)[1..] == a[1..] + b;
      ParseOverConcat(a[1..], b);
    } else {
      ParseOpened(a);
      ClosedWithin(a, b);
      var rest := a[Closing(a) + 2..];
      ParseOverConcat(rest, b);
      PrependTwice([FirstVar(a)], ParseLines(rest).value, ParseLines(b));
    }
  }

  lemma OpensAlike(lines: seq<string>, more: seq<string>)
    requires Opens(lines)
    ensures Opens(lines + more) && Delimiter(lines + more) == Delimiter(lines)
    ensures (lines + more)[1..] == lines[1..] + more
  {
    assert (lines + more)[0] == lines[0];
  }

  lemma ClosingWithin(lines: seq<string>, more: seq<string>)
    requires Opens(lines) && Closing(lines) < |lines| - 1
    ensures Opens(lines + more) && Closing(lines + more) == Closing(lines) && FirstVar(lines + more) == FirstVar(lines)
    ensures (lines + more)[Closing(lines) + 2..] == lines[Closing(lines) + 2..] + more
  {
    OpensAlike(lines, more);
    PositionBefore(lines[1..], Delimiter(lines), more);
    DropConcat(lines, more, Closing(lines) + 2);
    assert (lines + more)[0] == lines[0];
    assert (lines[1..] + more)[..Closing(lines)] == lines[1..][..Closing(lines)];
  }

  lemma ClosingBeyond(lines: seq<string>, more: seq<string>)
    requires Opens(lines) && Closing(lines) == |lines| - 1
    ensures var n := Position(more, Delimiter(lines));
            Opens(lines + more) && Closing(lines + more) == |lines| - 1 + n
  {
    OpensAlike(lines, more);
    PositionBeyond(lines[1..], Delimiter(lines), more);
  }

  lemma ParseOpened(lines: seq<string>)
    requires Opens(lines)
    ensures ParseLines(lines) ==
              if Closing(lines) == |lines| - 1 then None
              else Prepend([FirstVar(lines)], ParseLines(lines[Closing(lines) + 2..]))
  {
  }

  lemma ReadsOnAfter(lines: seq<string>, n: nat, rest: seq<string>)
    requires Opens(lines) && Closing(lines) == n && (n < |lines| - 1 ==> lines[n + 2..] == rest)
    ensures ParseLines(lines).Some? <==> n < |lines| - 1 && ParseLines(rest).Some?
  {
    ParseOpened(lines);
  }

  /** A heredoc closed among `lines` is read the same with more lines after them. */
  lemma ClosedWithin(lines: seq<string>, more: seq<string>)
    requires Opens(lines) && Closing(lines) < |lines| - 1
    ensures ParseLines(lines + more) == Prepend([FirstVar(lines)], ParseLines(lines[Closing(lines) + 2..] + more))
  {
    ClosingWithin(lines, more);
    ParseOpened(lines + more);
  }

  /** One that is not is closed by the first of those lines that is its delimiter. */
  lemma ClosedBeyond(lines: seq<string>, more: seq<string>)
    requires Opens(lines) && Closing(lines) == |lines| - 1
    ensures var n := Position(more, Delimiter(lines));
            ParseLines(lines + more).Some? <==> n < |more| && ParseLines(more[n + 1..]).Some?
  {
    var n := Position(more, Delimiter(lines));
    var rest := if n < |more| then more[n + 1..] else [];
    ClosingBeyond(lines, more);
    DropConcat(lines, more, if n < |more| then |lines| + n + 1 else 0);
    ReadsOnAfter(lines + more, |lines| - 1 + n, rest);
  }

  lemma PrependNothing(rest: Option<seq<EnvVar>>)
    ensures Prepend([], rest) == rest
  {
    if rest.Some? {
      assert [] + rest.value == rest.value;
    }
  }

  lemma {:induction false} PositionBefore(lines: seq<string>, line: string, more: seq<string>)
    requires Position(lines, line) < |lines|
    ensures Position(lines + more, line) == Position(lines, line)
  {
    assert (lines + more)[0] == lines[0] && (lines + more)[1..] == lines[1..] + more;
    if lines[0] != line {
      PositionBefore(lines[1..], line, more);
    }
  }

  lemma {:induction false} PositionBeyond(lines: seq<string>, line: string, more: seq<string>)
    requires Position(lines, line) == |lines|
    ensures Position(lines + more, line) == |lines| + Position(more, line)
  {
    if lines == [] {
      assert lines + more == more;
    } else {
      assert (lines + more)[0] == lines[0] && (lines + more)[1..] == lines[1..] + more;
      PositionBeyond(lines[1..], line, more);
    }
  }

  /** What the variables written leave behind reads by itself. */
  lemma {:induction false} WrittenIsSettled(vars: seq<EnvVar>, delimiter: string)
    requires '\n' !in delimiter && !Collides(vars, delimiter)
    requires forall v :: v in vars ==> CleanKey(v.key)
    ensures Settled(Written(vars, delimiter)) && Settlement(Written(vars, delimiter)) == vars
    decreases |vars|
  {
    if vars != [] {
      var init, last := vars[..|vars| - 1], vars[|vars| - 1];
      assert vars == init + [last];
      assert forall i :: 0 <= i < |init| ==> init[i] == vars[i];
      WrittenIsSettled(init, delimiter);
      EntryIsSettled(last, delimiter);
      SettledOverConcat(Written(init, delimiter), Entry(last, delimiter));
    }
  }

  lemma EntryIsSettled(v: EnvVar, delimiter: string)
    requires CleanKey(v.key) && '\n' !in delimiter && !Contains(v.value, delimiter)
    ensures Settled(Entry(v, delimiter)) && Settlement(Entry(v, delimiter)) == [v]
  {
    var entry, body := Entry(v, delimiter), Lines(v.value);
    assert entry + "" == entry && Lines("") == [""];
    LinesOfEntry(v, delimiter, "");
    if delimiter in body {
      LinesAreContained(v.value, delimiter);
    }
    ParseOneHeredoc(v.key, delimiter, body, []);
    JoinUndoesLines(v.value);
    assert [delimiter] + [] == [delimiter] && [v] + [] == [v];
    assert Finished(entry) == [Header(v, delimiter)] + (body + [delimiter]);
  }

  lemma SettledOverConcat(content: string, more: string)
    requires Settled(content)
    ensures EndsItsLine(content + more) == EndsItsLine(more)
    ensures Finished(content + more) == Finished(content) + Finished(more)
    ensures ParseLines(Finished(content + more)) == Prepend(Settlement(content), ParseLines(Finished(more)))
    ensures Parse(content + more) == Prepend(Settlement(content), Parse(more))
  {
    LinesAfterEnded(content, more);
    ParseOverConcat(Finished(content), Lines(more));
    ParseOverConcat(Finished(content), Finished(more));
  }

  /**
    What an append to a settled file leaves reads as the variables that were there, followed by those
    written, if and only if every key written is clean; and then the file is settled again.
   */
  lemma AppendedIsReadBackIff(content: string, vars: seq<EnvVar>, delimiter: string)
    requires Settled(content) && '\n' !in delimiter && !Collides(vars, delimiter)
    ensures Parse(content + Written(vars, delimiter)) == Some(Settlement(content) + vars) <==>
            forall v :: v in vars ==> CleanKey(v.key)
    ensures (forall v :: v in vars ==> CleanKey(v.key)) ==>
              var after := content + Written(vars, delimiter);
              Settled(after) && Settlement(after) == Settlement(content) + vars
  {
    var before := Settlement(content);
    SettledOverConcat(content, Written(vars, delimiter));
    RoundTripIff(vars, delimiter);
    if forall v :: v in vars ==> CleanKey(v.key) {
      WrittenIsSettled(vars, delimiter);
    } else if Parse(Written(vars, delimiter)).Some? {
      var read := Parse(Written(vars, delimiter)).value;
      assert (before + read)[|before|..] == read && (before + vars)[|before|..] == vars;
    }
  }

  /** A heredoc that only the end of the file closed takes in the next line. */
  lemma {:induction false} UnsettledTakesIn(lines: seq<string>)
    requires ParseLines(lines) == None && ParseLines(lines + [""]).Some?
    ensures ParseLines(lines + ["x", ""]).Some?
    decreases |lines|, 1
  {
    assert lines != [];
    if lines[0] == "" {
      assert (lines + [""])[1..] == lines[1..] + [""] && (lines + ["x", ""])[1..] == lines[1..] + ["x", ""];
      UnsettledTakesIn(lines[1..]);
    } else {
      assert (lines + [""])[0] == lines[0];
      assert Opens(lines);
      OpenTakesIn(lines);
    }
  }

  lemma {:induction false} OpenTakesIn(lines: seq<string>)
    requires Opens(lines) && ParseLines(lines) == None && ParseLines(lines + [""]).Some?
    ensures ParseLines(lines + ["x", ""]).Some?
    decreases |lines|, 0
  {
    var n := Closing(lines);
    if n < |lines| - 1 {
      ClosedWithin(lines, [""]);
      ClosedWithin(lines, ["x", ""]);
      UnsettledTakesIn(lines[n + 2..]);
    } else {
      ClosedBeyond(lines, [""]);
      ClosedBeyond(lines, ["x", ""]);
      assert Delimiter(lines) == "";
      assert Position(["x", ""], "") == 1 by { assert ["x", ""][1..] == [""]; }
      assert ["x", ""][2..] == [];
    }
  }

  lemma SettledGoesOn(content: string, more: string)
    requires Settled(content)
    ensures Parse(content) == Some(Settlement(content))
    ensures Parse(content + more) == Prepend(Settlement(content), Parse(more))
  {
    SettledOverConcat(content, more);
    SettledOverConcat(content, "");
    assert content + "" == content && Lines("") == [""];
    assert Settlement(content) + [] == Settlement(content);
  }

  lemma UnsettledDoesNot(content: string)
    requires EndsItsLine(content) && Parse(content).Some? && !Settled(content)
    ensures Parse(content + "x\n").Some? && Parse("x\n") == None
  {
    SingleLine("x");
    LinesOfConcat("x", "");
    assert "x" + "\n" + "" == "x\n" && Lines("x\n") == ["x", ""];
    LinesInFull(content);
    LinesAfterEnded(content, "x\n");
    UnsettledTakesIn(Finished(content));
    assert Marker("x") == 1;
  }

  /**
    For a file that parses and ends in a newline, being settled is exactly what makes anything appended read
    as if it stood alone, after the variables already there.
   */
  lemma SettledIff(content: string)
    requires EndsItsLine(content) && Parse(content).Some?
    ensures Settled(content) <==> forall more :: Parse(content + more) == Prepend(Parse(content).value, Parse(more))
  {
    if Settled(content) {
      forall more ensures Parse(content + more) == Prepend(Parse(content).value, Parse(more)) {
        SettledGoesOn(content, more);
      }
    } else {
      UnsettledDoesNot(content);
      assert Parse(content + "x\n") != Prepend(Parse(content).value, Parse("x\n"));
    }
  }

  /** Two steps appending to the same file, each under its own delimiter, are both read back. */
  lemma TwoAppendsAreReadBack(a: seq<EnvVar>, da: string, b: seq<EnvVar>, db: string)
    requires '\n' !in da && '\n' !in db && !Collides(a, da) && !Collides(b, db)
    requires forall v :: v in a + b ==> CleanKey(v.key)
    ensures Parse(Written(a, da) + Written(b, db)) == Some(a + b)
  {
    WrittenIsSettled(a, da);
    AppendedIsReadBackIff(Written(a, da), b, db);
  }

  /** A key ending in '<' is misread, whatever its value, although it contains no "<<". */
  lemma TrailingMarkIsMisread(value: string, delimiter: string)
    requires '\n' !in delimiter && !Contains(value, delimiter)
    ensures Marker("A<") == |"A<"|
    ensures Parse(Written([EnvVar("A<", value)], delimiter)) != Some([EnvVar("A<", value)])
  {
    var v := EnvVar("A<", value);
    assert [v][0].value == value && v in [v];
    CleanKeyIff("A<");
    RoundTripIff([v], delimiter);
  }
}
