/** `process_llm1_response` of LLM_ops.py, which turns the planner's reply
    into the list of subtasks. The model calls themselves are not part of
    this model; their replies come in as parameters. */
module LLMOps {
  import opened Text

  // ---------------------------------------------------------------------
  // The bracketed list (LLM_ops.py:179-182)
  // ---------------------------------------------------------------------

  /** `re.search(r"\[(.*?)\]", s, re.DOTALL).group(0)`: from the first `[`
      to the first `]` after it, both included; None when there is no such
      pair. */
  function BracketSpan(s: string): (r: Option<string>)
    ensures r.Some? ==> |r.value| >= 2 && r.value[0] == '[' && r.value[|r.value| - 1] == ']'
    ensures r.Some? ==> ']' !in r.value[1..|r.value| - 1]
  {
    match IndexOf(s, '[')
    case None => None
    case Some(i) =>
      match IndexOf(s[i + 1..], ']')
      case None => None
      case Some(d) =>
        var span := s[i..i + d + 2];
        var rest := s[i + 1..];
        assert forall k :: 0 <= k < d ==> span[1..d + 1][k] == rest[..d][k];
        assert span[1..d + 1] == rest[..d];
        Some(span)
  }

  /** The leftmost `[`, and the `]` nearest after it, delimit the span. */
  lemma BracketSpanIs(s: string, i: nat, j: nat)
    requires i < j < |s| && s[i] == '[' && '[' !in s[..i]
    requires s[j] == ']' && ']' !in s[i + 1..j]
    ensures BracketSpan(s) == Some(s[i..j + 1])
  {
    var rest := s[i + 1..];
    assert IndexOf(s, '[') == Some(i) by {
      IndexOfAt(s, '[', i);
    }
    assert IndexOf(rest, ']') == Some(j - i - 1) by {
      assert rest[..j - i - 1] == s[i + 1..j];
      IndexOfAt(rest, ']', j - i - 1);
    }
  }

  /** There is no span exactly when no `[` has a `]` somewhere after it. */
  lemma BracketSpanNone(s: string)
    ensures BracketSpan(s).None? <==> forall i, j :: 0 <= i < j < |s| && s[i] == '[' ==> s[j] != ']'
  {
    match IndexOf(s, '[')
    case None =>
    case Some(i) =>
      match IndexOf(s[i + 1..], ']')
      case None =>
        forall i', j | 0 <= i' < j < |s| && s[i'] == '[' ensures s[j] != ']' {
          assert i <= i';
          assert s[i + 1..][j - i - 1] == s[j];
        }
      case Some(d) =>
        assert s[i + 1 + d] == ']';
  }

  /** Text before the first `[` and after the closing `]` does not matter. */
  lemma BracketSpanIgnoresContext(before: string, inner: string, after: string)
    requires '[' !in before && ']' !in inner
    ensures BracketSpan(before + "[" + inner + "]" + after) == Some("[" + inner + "]")
  {
    var s := before + "[" + inner + "]" + after;
    var i := |before|;
    var j := |before| + 1 + |inner|;
    assert '[' !in s[..i] && s[i] == '[' by {
      assert s[..i] == before;
    }
    assert ']' !in s[i + 1..j] && s[j] == ']' by {
      assert s[i + 1..j] == inner;
    }
    assert s[i..j + 1] == "[" + inner + "]";
    BracketSpanIs(s, i, j);
  }

  // ---------------------------------------------------------------------
  // The line fallback (LLM_ops.py:185-191)
  // ---------------------------------------------------------------------

  /** The character class `[\d\-\*]`. */
  predicate IsMarkChar(c: char) { IsDigit(c) || c == '-' || c == '*' }

  function MarkLen(s: string): (n: nat)
    ensures n <= |s| && forall k :: 0 <= k < n ==> IsMarkChar(s[k])
    ensures n < |s| ==> !IsMarkChar(s[n])
  {
    if s != [] && IsMarkChar(s[0]) then
      var n := 1 + MarkLen(s[1..]);
      assert forall k :: 1 <= k < n ==> s[k] == s[1..][k - 1];
      n
    else 0
  }

  /** How much `re.sub(r'^\s*[\d\-\*]+\.\s*', '', line)` removes from
      the front of `line`: whitespace, a run of digits, `-` or `*` closed by
      a `.`, and the whitespace after it; nothing when the line does not
      start that way. */
  function MarkerLen(line: string): (n: nat)
    ensures n <= |line|
  {
    var w := SpaceLen(line);
    var k := NumberMarkLen(line[w..]);
    if k > 0 then w + k else 0
  }

  /** The part of the marker after the leading whitespace: the run, the
      `.` and the whitespace after it, or 0 when the text does not start
      with a run closed by a `.`. */
  function NumberMarkLen(rest: string): (n: nat)
    ensures n <= |rest|
  {
    var m := MarkLen(rest);
    if m > 0 && m < |rest| && rest[m] == '.' then m + 1 + SpaceLen(rest[m + 1..]) else 0
  }

  /** `clean_line`: the line without its marker, stripped. */
  function CleanLine(line: string): string {
    Strip(line[MarkerLen(line)..])
  }

  /** A line is taken when its cleaned form is non-empty and differs from it. */
  predicate Keep(line: string) {
    CleanLine(line) != "" && line != CleanLine(line)
  }

  /** `potential_list`: the cleaned forms of the kept lines, in line order. */
  function Collected(lines: seq<string>): (r: seq<string>)
    ensures |r| <= |lines|
    decreases |lines|
  {
    if lines == [] then []
    else
      var line := lines[|lines| - 1];
      Collected(lines[..|lines| - 1]) + if Keep(line) then [CleanLine(line)] else []
  }

  /** Collecting line by line: the kept lines of two blocks are the kept
      lines of the first followed by those of the second. */
  lemma {:induction false} CollectedAppend(a: seq<string>, b: seq<string>)
    ensures Collected(a + b) == Collected(a) + Collected(b)
    decreases |b|
  {
    if b == [] {
      assert a + b == a;
    } else {
      var b' := b[..|b| - 1];
      assert (a + b)[..|a + b| - 1] == a + b';
      assert (a + b)[|a + b| - 1] == b[|b| - 1];
      CollectedAppend(a, b');
    }
  }

  lemma CollectedSnoc(lines: seq<string>, line: string)
    ensures Collected(lines + [line]) == Collected(lines) + if Keep(line) then [CleanLine(line)] else []
  {
    assert (lines + [line])[..|lines|] == lines;
  }

  lemma CollectedPrefix(lines: seq<string>, i: nat)
    requires i < |lines|
    ensures Collected(lines[..i + 1]) == Collected(lines[..i]) + if Keep(lines[i]) then [CleanLine(lines[i])] else []
  {
    assert lines[..i + 1] == lines[..i] + [lines[i]];
    CollectedSnoc(lines[..i], lines[i]);
  }

  /** A lone line is collected, as its cleaned form, exactly when it is kept. */
  lemma CollectedOne(line: string)
    ensures Collected([line]) == if Keep(line) then [CleanLine(line)] else []
  {
    assert [line][..0] == [];
  }

  /** A numbered or bulleted item `  12. text` is collected as `text`. */
  lemma MarkerOf(ws: string, marks: string, ws2: string, text: string)
    requires AllSpace(ws) && AllSpace(ws2)
    requires marks != [] && forall k :: 0 <= k < |marks| ==> IsMarkChar(marks[k])
    requires text != [] && Trimmed(text)
    ensures MarkerLen(ws + marks + "." + ws2 + text) == |ws| + |marks| + 1 + |ws2|
    ensures CleanLine(ws + marks + "." + ws2 + text) == text
    ensures Keep(ws + marks + "." + ws2 + text)
  {
    var line := ws + marks + "." + ws2 + text;
    var w := |ws|;
    var k := |marks| + 1 + |ws2|;
    assert SpaceLen(line) == w by {
      assert line[..w] == ws && line[w] == marks[0];
      SpaceLenOf(line, w);
    }
    assert NumberMarkLen(line[w..]) == k by {
      var r2 := ws2 + text;
      assert line[w..] == marks + ("." + r2);
      assert r2[..|ws2|] == ws2 && r2[|ws2|] == text[0];
      NumberMarkOf(line[w..], marks, r2, |ws2|);
    }
    MarkerLenAt(line, w, k);
    assert line[w + k..] == text;
    StripIdentity(text);
  }

  lemma NumberMarkOf(r1: string, marks: string, r2: string, w2: nat)
    requires r1 == marks + ("." + r2)
    requires marks != [] && forall k :: 0 <= k < |marks| ==> IsMarkChar(marks[k])
    requires w2 <= |r2| && AllSpace(r2[..w2]) && (w2 < |r2| ==> !IsSpace(r2[w2]))
    ensures NumberMarkLen(r1) == |marks| + 1 + w2
  {
    var m := |marks|;
    assert r1[..m] == marks && r1[m] == '.';
    MarkLenOf(r1, m);
    assert r1[m + 1..] == r2;
    SpaceLenOf(r2, w2);
  }

  lemma MarkerLenAt(line: string, w: nat, k: nat)
    requires w <= |line| && SpaceLen(line) == w && NumberMarkLen(line[w..]) == k
    ensures MarkerLen(line) == if k > 0 then w + k else 0
  {
  }

  lemma {:induction false} MarkLenOf(s: string, n: nat)
    requires n <= |s| && (forall k :: 0 <= k < n ==> IsMarkChar(s[k])) && (n < |s| ==> !IsMarkChar(s[n]))
    ensures MarkLen(s) == n
  {
    if n > 0 {
      MarkLenOf(s[1..], n - 1);
    }
  }

  /** Without a marker, a line is collected, stripped, exactly when it has
      surrounding whitespace (a trailing `\r` included) and is not blank. */
  lemma UnmarkedKeepIff(line: string)
    requires MarkerLen(line) == 0
    ensures CleanLine(line) == Strip(line)
    ensures Keep(line) <==> Strip(line) != "" && !Trimmed(line)
  {
    assert line[0..] == line;
    if Trimmed(line) {
      StripIdentity(line);
    }
  }

  /** `- item` with nothing around it is not collected: a bullet without a
      `.` is no marker, and the stripped line equals the line. */
  lemma DashItemNotCollected(item: string)
    requires item != [] && !IsSpace(item[|item| - 1])
    ensures !Keep("- " + item)
  {
    var line := "- " + item;
    assert SpaceLen(line) == 0;
    assert line[0..] == line;
    assert line[1] == ' ';
    assert MarkLen(line) == 1 by { MarkLenOf(line, 1); }
    assert MarkerLen(line) == 0;
    UnmarkedKeepIff(line);
    assert line[|line| - 1] == item[|item| - 1];
  }

  // ---------------------------------------------------------------------
  // process_llm1_response (LLM_ops.py:166-202)
  // ---------------------------------------------------------------------

  /** The line loop of `process_llm1_response`. */
  method CollectLines(lines: seq<string>) returns (potential: seq<string>)
    ensures potential == Collected(lines)
  {
    potential := [];
    for i := 0 to |lines|
      invariant potential == Collected(lines[..i])
    {
      var line := lines[i];
      CollectedPrefix(lines, i);
      var clean := CleanLine(line);
      if clean != "" && line != clean {
        potential := potential + [clean];
      }
    }
    assert lines[..|lines|] == lines;
  }

  /** `process_llm1_response`. `literalEval` stands for `ast.literal_eval`
      applied to the bracketed span: the list of items it evaluates to, or
      None when it raises `SyntaxError` or `ValueError`. */
  method ProcessLLM1Response(response: string, literalEval: string -> Option<seq<string>>)
    returns (subtasks: seq<string>)
    ensures BracketSpan(response).Some? ==>
      subtasks == match literalEval(BracketSpan(response).value) case None => [] case Some(items) => items
    ensures BracketSpan(response).None? && Collected(Split(response, '\n')) != [] ==>
      subtasks == Collected(Split(response, '\n'))
    ensures BracketSpan(response).None? && Collected(Split(response, '\n')) == [] ==>
      subtasks == [Strip(response)]
  {
    var span := BracketSpan(response);
    if span.Some? {
      match literalEval(span.value) {
        case None => return [];
        case Some(items) => return items;
      }
    }
    var lines := Split(response, '\n');
    var potential := CollectLines(lines);
    if potential != [] {
      return potential;
    }
    return [Strip(response)];
  }
}
