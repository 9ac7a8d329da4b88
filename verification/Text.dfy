/** Lines, substrings and replacement. */
module Text {
  import opened Common

  /** The pieces between newlines; a text without any is one line. */
  function Lines(s: string): (lines: seq<string>)
    ensures |lines| >= 1
    ensures forall l :: l in lines ==> '\n' !in l
  {
    if s == "" then [""]
    else
      var rest := Lines(s[1..]);
      if s[0] == '\n' then [""] + rest else [[s[0]] + rest[0]] + rest[1..]
  }

  /** Lines put together again with newlines between them; no lines make the empty text. */
  function Join(lines: seq<string>): string {
    if lines == [] then "" else if |lines| == 1 then lines[0] else lines[0] + "\n" + Join(lines[1..])
  }

  predicate IsHexDigit(c: char) {
    '0' <= c <= '9' || 'a' <= c <= 'f'
  }

  predicate OccursAt(s: string, part: string, i: nat) {
    i + |part| <= |s| && s[i..i + |part|] == part
  }

  predicate Contains(s: string, part: string) {
    exists i: nat :: i <= |s| && OccursAt(s, part, i)
  }

  lemma {:induction false} JoinUndoesLines(s: string)
    ensures Join(Lines(s)) == s
  {
    if s != "" {
      var rest := Lines(s[1..]);
      JoinUndoesLines(s[1..]);
      assert s == [s[0]] + s[1..];
      if s[0] == '\n' {
        assert ([""] + rest)[1..] == rest;
      } else {
        assert ([[s[0]] + rest[0]] + rest[1..])[1..] == rest[1..];
      }
    }
  }

  lemma {:induction false} LinesOfConcat(a: string, b: string)
    ensures Lines(a + "\n" + b) == Lines(a) + Lines(b)
  {
    var s := a + "\n" + b;
    if a == "" {
      assert s[1..] == b;
    } else {
      LinesOfConcat(a[1..], b);
      assert s[1..] == a[1..] + "\n" + b;
      FirstOfConcat(a[0], Lines(a[1..]), Lines(b));
    }
  }

  lemma FirstOfConcat(c: char, lines: seq<string>, more: seq<string>)
    requires lines != []
    ensures [""] + (lines + more) == [""] + lines + more
    ensures [[c] + (lines + more)[0]] + (lines + more)[1..] == [[c] + lines[0]] + lines[1..] + more
  {
    assert (lines + more)[1..] == lines[1..] + more;
  }

  lemma {:induction false} SingleLine(s: string)
    requires '\n' !in s
    ensures Lines(s) == [s]
  {
    if s != "" {
      SingleLine(s[1..]);
      assert s == [s[0]] + s[1..];
    }
  }

  lemma {:induction false} FirstLineStarts(s: string)
    ensures Lines(s)[0] <= s
  {
    if s != "" {
      FirstLineStarts(s[1..]);
      assert s == [s[0]] + s[1..];
    }
  }

  lemma {:induction false} LinesAreContained(s: string, line: string)
    requires line in Lines(s)
    ensures Contains(s, line)
  {
    FirstLineStarts(s);
    if line == Lines(s)[0] {
      assert OccursAt(s, line, 0);
    } else {
      assert line in Lines(s[1..]);
      LinesAreContained(s[1..], line);
      var i: nat :| i <= |s[1..]| && OccursAt(s[1..], line, i);
      assert s[1..][i..i + |line|] == s[i + 1..i + 1 + |line|];
      assert OccursAt(s, line, i + 1);
    }
  }

  // ---------------------------------------------------------------- replacing

  /** Every non-overlapping occurrence of `part`, from the left, replaced by `put`. */
  function ReplaceAll(s: string, part: string, put: string): string
    requires part != ""
    decreases |s|
  {
    if s == "" then ""
    else if part <= s then put + ReplaceAll(s[|part|..], part, put)
    else [s[0]] + ReplaceAll(s[1..], part, put)
  }

  lemma ReplaceFirst(s: string, c: char, put: string)
    requires s != ""
    ensures ReplaceAll(s, [c], put) == (if s[0] == c then put else [s[0]]) + ReplaceAll(s[1..], [c], put)
  {
    assert [c] <= s <==> [c][0] == s[0];
  }

  /** Replacing one character everywhere goes through a text piece by piece. */
  lemma {:induction false} ReplaceOverConcat(a: string, b: string, c: char, put: string)
    ensures ReplaceAll(a + b, [c], put) == ReplaceAll(a, [c], put) + ReplaceAll(b, [c], put)
  {
    if a == "" {
      assert a + b == b;
    } else {
      ReplaceOverConcat(a[1..], b, c, put);
      assert (a + b)[0] == a[0] && (a + b)[1..] == a[1..] + b;
      ReplaceFirst(a + b, c, put);
      ReplaceFirst(a, c, put);
      Associates(if a[0] == c then put else [a[0]], ReplaceAll(a[1..], [c], put), ReplaceAll(b, [c], put));
    }
  }

  lemma ReplaceChar(x: char, c: char, put: string)
    ensures ReplaceAll([x], [c], put) == if x == c then put else [x]
  {
    assert [x][1..] == "";
    assert put + "" == put && [x] + "" == [x];
    assert [c] <= [x] <==> [c][0] == [x][0];
  }

  lemma {:induction false} ReplaceAbsent(s: string, c: char, put: string)
    requires c !in s
    ensures ReplaceAll(s, [c], put) == s
  {
    if s != "" {
      ReplaceAbsent(s[1..], c, put);
      assert !([c] <= s) by { assert s[0] != c; }
    }
  }
}
