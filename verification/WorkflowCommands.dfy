/** Masking secrets through workflow commands: the escaping of command data, and one command per secret line. */
module WorkflowCommands {
  import opened Text

  function EscapeData(s: string): string {
    ReplaceAll(ReplaceAll(ReplaceAll(s, "%", "%25"), "\r", "%0D"), "\n", "%0A")
  }

  /** The runner's decoding: the percent sign last. */
  function UnescapeData(s: string): string {
    ReplaceAll(ReplaceAll(ReplaceAll(s, "%0A", "\n"), "%0D", "\r"), "%25", "%")
  }

  // ---------------------------------------------------------------- one pass, character by character

  /** `percent`, `cr` and `lf` say which of the three characters are written as escapes. */
  function Coded(c: char, percent: bool, cr: bool, lf: bool): (code: string)
    ensures code != ""
  {
    if c == '%' && percent then "%25"
    else if c == '\r' && cr then "%0D"
    else if c == '\n' && lf then "%0A"
    else [c]
  }

  function Encoded(s: string, percent: bool, cr: bool, lf: bool): string {
    if s == "" then "" else Coded(s[0], percent, cr, lf) + Encoded(s[1..], percent, cr, lf)
  }

  lemma {:induction false} PercentStep(s: string)
    ensures ReplaceAll(s, "%", "%25") == Encoded(s, true, false, false)
  {
    if s != "" {
      PercentStep(s[1..]);
      assert "%" <= s <==> s[0] == '%';
    }
  }

  lemma {:induction false} CrStep(s: string)
    ensures ReplaceAll(Encoded(s, true, false, false), "\r", "%0D") == Encoded(s, true, true, false)
  {
    if s != "" {
      CrStep(s[1..]);
      ReplaceOverConcat(Coded(s[0], true, false, false), Encoded(s[1..], true, false, false), '\r', "%0D");
      if s[0] == '%' {
        ReplaceAbsent("%25", '\r', "%0D");
      } else {
        ReplaceChar(s[0], '\r', "%0D");
      }
    }
  }

  lemma {:induction false} LfStep(s: string)
    ensures ReplaceAll(Encoded(s, true, true, false), "\n", "%0A") == Encoded(s, true, true, true)
  {
    if s != "" {
      LfStep(s[1..]);
      var code := Coded(s[0], true, true, false);
      ReplaceOverConcat(code, Encoded(s[1..], true, true, false), '\n', "%0A");
      if s[0] == '%' || s[0] == '\r' {
        ReplaceAbsent(code, '\n', "%0A");
      } else {
        ReplaceChar(s[0], '\n', "%0A");
      }
    }
  }

  /** Three replacements in that order are one pass that never escapes an escape. */
  lemma EscapeIsOnePass(s: string)
    ensures EscapeData(s) == Encoded(s, true, true, true)
  {
    PercentStep(s);
    CrStep(s);
    LfStep(s);
  }

  // ---------------------------------------------------------------- decoding

  lemma PlainStep(c: char, rest: string, part: string, put: string)
    requires part != "" && part[0] == '%' && c != '%'
    ensures ReplaceAll([c] + rest, part, put) == [c] + ReplaceAll(rest, part, put)
  {
    var s := [c] + rest;
    assert s[0] == c && s[1..] == rest;
  }

  lemma HitStep(part: string, rest: string, put: string)
    requires part != ""
    ensures ReplaceAll(part + rest, part, put) == put + ReplaceAll(rest, part, put)
  {
    assert (part + rest)[|part|..] == rest;
  }

  /** An escape other than the one looked for is copied. */
  lemma MissStep(x: char, y: char, rest: string, part: string, put: string)
    requires |part| == 3 && part[0] == '%' && (part[1] != x || part[2] != y) && x != '%' && y != '%'
    ensures ReplaceAll(['%', x, y] + rest, part, put) == ['%', x, y] + ReplaceAll(rest, part, put)
  {
    var s := ['%', x, y] + rest;
    assert s[1] == x && s[2] == y;
    assert s[1..] == [x] + ([y] + rest);
    PlainStep(x, [y] + rest, part, put);
    PlainStep(y, rest, part, put);
  }

  lemma {:induction false} UndoLf(s: string)
    ensures ReplaceAll(Encoded(s, true, true, true), "%0A", "\n") == Encoded(s, true, true, false)
  {
    if s != "" {
      UndoLf(s[1..]);
      var rest := Encoded(s[1..], true, true, true);
      if s[0] == '\n' {
        HitStep("%0A", rest, "\n");
      } else if s[0] == '%' {
        MissStep('2', '5', rest, "%0A", "\n");
      } else if s[0] == '\r' {
        MissStep('0', 'D', rest, "%0A", "\n");
      } else {
        PlainStep(s[0], rest, "%0A", "\n");
      }
    }
  }

  lemma {:induction false} UndoCr(s: string)
    ensures ReplaceAll(Encoded(s, true, true, false), "%0D", "\r") == Encoded(s, true, false, false)
  {
    if s != "" {
      UndoCr(s[1..]);
      var rest := Encoded(s[1..], true, true, false);
      if s[0] == '\r' {
        HitStep("%0D", rest, "\r");
      } else if s[0] == '%' {
        MissStep('2', '5', rest, "%0D", "\r");
      } else {
        PlainStep(s[0], rest, "%0D", "\r");
      }
    }
  }

  lemma {:induction false} UndoPercent(s: string)
    ensures ReplaceAll(Encoded(s, true, false, false), "%25", "%") == s
  {
    if s != "" {
      UndoPercent(s[1..]);
      var rest := Encoded(s[1..], true, false, false);
      if s[0] == '%' {
        HitStep("%25", rest, "%");
      } else {
        PlainStep(s[0], rest, "%25", "%");
      }
    }
  }

  /** Decoding undoes escaping, whatever escapes the text already seems to contain. */
  lemma EscapeRoundTrip(s: string)
    ensures UnescapeData(EscapeData(s)) == s
  {
    EscapeIsOnePass(s);
    UndoLf(s);
    UndoCr(s);
    UndoPercent(s);
  }

  lemma {:induction false} EncodedHasNoBreaks(s: string)
    ensures '\r' !in Encoded(s, true, true, true) && '\n' !in Encoded(s, true, true, true)
  {
    if s != "" {
      EncodedHasNoBreaks(s[1..]);
    }
  }

  /** Escaped data never ends the command it is in. */
  lemma EscapedIsOneLine(s: string)
    ensures '\r' !in EscapeData(s) && '\n' !in EscapeData(s)
  {
    EscapeIsOnePass(s);
    EncodedHasNoBreaks(s);
  }
}

/** Which masks are registered for a secret. */
module SecretMasks {
  import opened Common
  import opened Text
  import opened WorkflowCommands

  const MASK_COMMAND := "::add-mask::"

  predicate IsBreak(c: char) {
    c == '\r' || c == '\n'
  }

  /** The maximal runs of characters that are neither CR nor LF. */
  function Runs(s: string): (runs: seq<string>)
    ensures forall r :: r in runs ==> r != "" && '\r' !in r && '\n' !in r
  {
    if s == "" then []
    else if IsBreak(s[0]) then Runs(s[1..])
    else
      var n := RunLength(s);
      assert s[0] == s[..n][0];
      [s[..n]] + Runs(s[n..])
  }

  function RunLength(s: string): (n: nat)
    ensures n <= |s| && (n < |s| ==> IsBreak(s[n])) && forall i :: 0 <= i < n ==> !IsBreak(s[i])
    ensures s != "" && !IsBreak(s[0]) ==> n > 0
  {
    if s == "" || IsBreak(s[0]) then 0 else 1 + RunLength(s[1..])
  }

  function NonEmpty(lines: seq<string>): seq<string> {
    if lines == [] then []
    else NonEmpty(lines[..|lines| - 1]) + Kept(lines[|lines| - 1])
  }

  function Kept(line: string): seq<string> {
    if line == "" then [] else [line]
  }

  function Normalized(value: string): string {
    ReplaceAll(ReplaceAll(value, "\r\n", "\n"), "\r", "\n")
  }

  method SplitSecretLines(value: string) returns (out: seq<string>)
    ensures out == Runs(value)
  {
    var normalized := Normalized(value);
    var lines := Lines(normalized);
    out := [];
    for i := 0 to |lines|
      invariant out == NonEmpty(lines[..i])
    {
      assert lines[..i + 1][..i] == lines[..i];
      if lines[i] == "" {
        continue;
      }
      out := out + [lines[i]];
    }
    assert lines[..|lines|] == lines;
    SplitIsRuns(value);
  }

  // ---------------------------------------------------------------- splitting is finding the runs

  lemma {:induction false} NonEmptyFront(line: string, lines: seq<string>)
    ensures NonEmpty([line] + lines) == Kept(line) + NonEmpty(lines)
    decreases |lines|
  {
    var all := [line] + lines;
    if lines == [] {
      assert all[..0] == [] && all == [line];
    } else {
      var init, last := lines[..|lines| - 1], lines[|lines| - 1];
      NonEmptyFront(line, init);
      assert all[..|all| - 1] == [line] + init && all[|all| - 1] == last;
      Associates(Kept(line), NonEmpty(init), Kept(last));
    }
  }

  /** The runs of a text that starts with a break, or with `c` and then `rest`. */
  lemma RunsOfCons(c: char, rest: string)
    ensures Runs([c] + rest) ==
              if IsBreak(c) then Runs(rest)
              else if rest == "" || IsBreak(rest[0]) then [[c]] + Runs(rest)
              else [[c] + Runs(rest)[0]] + Runs(rest)[1..]
  {
    var s := [c] + rest;
    assert s[1..] == rest;
    if !IsBreak(c) {
      var n := RunLength(rest);
      assert s[..n + 1] == [c] + rest[..n] && s[n + 1..] == rest[n..];
      if rest == "" || IsBreak(rest[0]) {
        assert rest[..0] == "" && rest[0..] == rest;
      }
    }
  }

  lemma {:induction false} LinesToRuns(s: string)
    requires '\r' !in s
    ensures NonEmpty(Lines(s)) == Runs(s)
    ensures s != "" && !IsBreak(s[0]) ==> Lines(s)[0] != ""
    ensures s == "" || IsBreak(s[0]) ==> Lines(s)[0] == ""
  {
    if s == "" {
      NonEmptyFront("", []);
    } else {
      var rest := Lines(s[1..]);
      LinesToRuns(s[1..]);
      assert s == [s[0]] + s[1..];
      RunsOfCons(s[0], s[1..]);
      if s[0] == '\n' {
        NonEmptyFront("", rest);
      } else {
        NonEmptyGrows(s[0], rest);
        assert rest[0] == "" <==> s[1..] == "" || IsBreak(s[1]);
      }
    }
  }

  /** A character put in front of the first line. */
  lemma NonEmptyGrows(c: char, lines: seq<string>)
    requires lines != []
    ensures lines[0] == "" ==> NonEmpty([[c] + lines[0]] + lines[1..]) == [[c]] + NonEmpty(lines)
    ensures lines[0] != "" ==>
              NonEmpty(lines) != [] &&
              NonEmpty([[c] + lines[0]] + lines[1..]) == [[c] + NonEmpty(lines)[0]] + NonEmpty(lines)[1..]
  {
    var others := NonEmpty(lines[1..]);
    NonEmptyFront([c] + lines[0], lines[1..]);
    NonEmptyFront(lines[0], lines[1..]);
    assert lines == [lines[0]] + lines[1..];
    if lines[0] == "" {
      assert [c] + lines[0] == [c];
      assert [] + others == others;
    } else {
      assert ([lines[0]] + others)[1..] == others;
    }
  }

  /** Turning CR LF, and then each remaining CR, into LF changes no run and leaves no CR. */
  lemma {:induction false} NormalizedRuns(value: string)
    ensures '\r' !in Normalized(value) && Runs(Normalized(value)) == Runs(value)
    ensures value == "" <==> Normalized(value) == ""
    ensures value != "" ==> IsBreak(Normalized(value)[0]) == IsBreak(value[0])
    decreases |value|
  {
    if value != "" {
      var once := ReplaceAll(value, "\r\n", "\n");
      if "\r\n" <= value {
        var rest := value[2..];
        NormalizedRuns(rest);
        assert value == ['\r'] + (['\n'] + rest);
        assert once == "\n" + ReplaceAll(rest, "\r\n", "\n");
        ReplaceOverConcat("\n", ReplaceAll(rest, "\r\n", "\n"), '\r', "\n");
        ReplaceChar('\n', '\r', "\n");
        assert Normalized(value) == ['\n'] + Normalized(rest);
        RunsOfCons('\n', Normalized(rest));
        RunsOfCons('\r', ['\n'] + rest);
        RunsOfCons('\n', rest);
      } else {
        var c, rest := value[0], value[1..];
        NormalizedRuns(rest);
        assert value == [c] + rest;
        ReplaceOverConcat([c], ReplaceAll(rest, "\r\n", "\n"), '\r', "\n");
        ReplaceChar(c, '\r', "\n");
        assert Normalized(value) == [if c == '\r' then '\n' else c] + Normalized(rest);
        RunsOfCons(c, rest);
        RunsOfCons(if c == '\r' then '\n' else c, Normalized(rest));
      }
    }
  }

  lemma SplitIsRuns(value: string)
    ensures NonEmpty(Lines(Normalized(value))) == Runs(value)
  {
    NormalizedRuns(value);
    LinesToRuns(Normalized(value));
  }

  function Flatten(parts: seq<string>): string {
    if parts == [] then "" else parts[0] + Flatten(parts[1..])
  }

  function WithoutBreaks(s: string): string {
    if s == "" then "" else (if IsBreak(s[0]) then "" else [s[0]]) + WithoutBreaks(s[1..])
  }

  /** The lines are the whole secret, breaks aside. */
  lemma {:induction false} RunsAreTheSecret(s: string)
    ensures Flatten(Runs(s)) == WithoutBreaks(s)
  {
    if s != "" {
      var rest := s[1..];
      RunsAreTheSecret(rest);
      assert s == [s[0]] + rest;
      RunsOfCons(s[0], rest);
      if !IsBreak(s[0]) && rest != "" && !IsBreak(rest[0]) {
        var runs := Runs(rest);
        assert ([[s[0]] + runs[0]] + runs[1..])[1..] == runs[1..];
      } else if !IsBreak(s[0]) {
        assert ([[s[0]]] + Runs(rest))[1..] == Runs(rest);
      }
    }
  }

  // ---------------------------------------------------------------- the commands

  function MaskLine(line: string): string {
    MASK_COMMAND + EscapeData(line)
  }

  function MaskOutput(lines: seq<string>): string {
    if lines == [] then "" else MaskOutput(lines[..|lines| - 1]) + (MaskLine(lines[|lines| - 1]) + "\n")
  }

  method MaskSecret(value: string) returns (printed: string)
    ensures printed == MaskOutput(Runs(value))
  {
    var lines := SplitSecretLines(value);
    printed := "";
    for i := 0 to |lines|
      invariant printed == MaskOutput(lines[..i])
    {
      assert lines[..i + 1][..i] == lines[..i];
      printed := printed + (MASK_COMMAND + EscapeData(lines[i]) + "\n");
    }
    assert lines[..|lines|] == lines;
  }

  /** What the runner registers from a log: the decoded data of every add-mask command line. */
  function Registered(log: seq<string>): seq<string> {
    if log == [] then [] else RegisteredBy(log[0]) + Registered(log[1..])
  }

  function RegisteredBy(line: string): seq<string> {
    if "::add-mask::" <= line then [UnescapeData(line[12..])] else []
  }

  lemma {:induction false} RegisteredOverConcat(a: seq<string>, b: seq<string>)
    ensures Registered(a + b) == Registered(a) + Registered(b)
  {
    if a == [] {
      assert a + b == b;
    } else {
      RegisteredOverConcat(a[1..], b);
      assert (a + b)[0] == a[0] && (a + b)[1..] == a[1..] + b;
      Associates(RegisteredBy(a[0]), Registered(a[1..]), Registered(b));
    }
  }

  lemma RegisteredOne(line: string)
    ensures '\n' !in MaskLine(line) && Registered([MaskLine(line)]) == [line]
  {
    EscapeRoundTrip(line);
    EscapedIsOneLine(line);
    assert MaskLine(line)[|MASK_COMMAND|..] == EscapeData(line);
    assert [MaskLine(line)][1..] == [];
  }

  lemma OneMaskIsRegistered(line: string, tail: string)
    ensures Registered(Lines(MaskLine(line) + "\n" + tail)) == [line] + Registered(Lines(tail))
  {
    RegisteredOne(line);
    LinesOfConcat(MaskLine(line), tail);
    SingleLine(MaskLine(line));
    RegisteredOverConcat([MaskLine(line)], Lines(tail));
  }

  lemma {:induction false} MasksAreRegistered(lines: seq<string>, tail: string)
    ensures Registered(Lines(MaskOutput(lines) + tail)) == lines + Registered(Lines(tail))
    decreases |lines|
  {
    if lines == [] {
      assert MaskOutput(lines) + tail == tail;
    } else {
      var init, last := lines[..|lines| - 1], lines[|lines| - 1];
      var line := MaskLine(last);
      MasksAreRegistered(init, line + "\n" + tail);
      OneMaskIsRegistered(last, tail);
      Associates(MaskOutput(init), line + "\n", tail);
      Associates(init, [last], Registered(Lines(tail)));
      assert lines == init + [last];
    }
  }

  /** Masking a secret registers exactly its lines: every CR/LF-free run of it, unescaped, and nothing else. */
  lemma SecretIsMaskedLineByLine(value: string)
    ensures Registered(Lines(MaskOutput(Runs(value)))) == Runs(value)
  {
    var printed := MaskOutput(Runs(value));
    MasksAreRegistered(Runs(value), "");
    assert printed + "" == printed;
    assert Registered(Lines("")) == [] by {
      assert Lines("") == [""] && [""][1..] == [];
    }
  }
}
