/** Recognising a board note: the cached-frontmatter test `isBoardFile`
    (main.js:849-855) and the line-based fallback `parseBoardFrontmatter`
    (main.js:863-883) that reads the note's raw text. */
module Frontmatter {
  import opened Wrappers
  import opened Text
  import opened JsValues

  /** `isBoardFile` on the cached `kanbanBoard` value: a boolean counts as itself, a
      string counts when it is "true" in any letter case, anything else does not. */
  predicate IsBoardValue(v: Value)
  {
    match v
    case Bool(b) => b
    case Str(s) => Lower(s) == "true"
    case _ => false
  }

  /** A string flag counts exactly when it spells `true` with each letter in either case. */
  lemma IsBoardStringIff(s: string)
    ensures IsBoardValue(Str(s)) <==>
              && |s| == 4
              && (s[0] == 't' || s[0] == 'T') && (s[1] == 'r' || s[1] == 'R')
              && (s[2] == 'u' || s[2] == 'U') && (s[3] == 'e' || s[3] == 'E')
  {
    LowerChars(s);
    if |s| == 4 {
      assert Lower(s) == "true" <==>
             Lower(s)[0] == 't' && Lower(s)[1] == 'r' && Lower(s)[2] == 'u' && Lower(s)[3] == 'e';
    }
  }

  /** A line with one trailing carriage return removed. */
  function StripCR(line: string): (r: string)
    ensures '\r' !in line ==> r == line
  {
    if |line| > 0 && line[|line| - 1] == '\r' then line[..|line| - 1] else line
  }

  /** `content.split(/\r?\n/)`: the pieces between line feeds, where a carriage return
      just before a line feed belongs to the separator. */
  function Lines(content: string): (lines: seq<string>)
    ensures |lines| == |Split(content, '\n')| >= 1
  {
    var raw := Split(content, '\n');
    seq(|raw|, i requires 0 <= i < |raw| => if i < |raw| - 1 then StripCR(raw[i]) else raw[i])
  }

  /** A line closing the frontmatter block: it trims to `---` or `...`. */
  predicate IsDelimiter(line: string)
  {
    Trim(line) == "---" || Trim(line) == "..."
  }

  /** The index of the first closing line at or after `from`. */
  function FindClose(lines: seq<string>, from: nat): (r: Option<nat>)
    ensures r.Some? ==> from <= r.value < |lines| && IsDelimiter(lines[r.value])
    ensures r.Some? ==> forall k :: from <= k < r.value ==> !IsDelimiter(lines[k])
    ensures r.None? ==> forall k :: from <= k < |lines| ==> !IsDelimiter(lines[k])
    decreases |lines| - from
  {
    if from >= |lines| then None
    else if IsDelimiter(lines[from]) then Some(from)
    else FindClose(lines, from + 1)
  }

  const BoardKey := "kanbanboard"

  /** The trimmed value the pattern `/^kanbanBoard\s*:\s*(.+)\s*$/i` captures on a line,
      or `None` when the line does not match. The key is compared case-insensitively;
      what follows the colon matches when, after trimming, it is non-empty and free of
      line terminators (`.` does not match them), or when it is blank but holds some
      white space other than a line terminator; either way the trimmed capture is the
      trimmed text after the colon. */
  function KeyLineValue(line: string): (r: Option<string>)
    ensures r.Some? ==> |line| >= |BoardKey| && Lower(line[..|BoardKey|]) == BoardKey
    ensures r.Some? ==> NoEdgeSpace(r.value)
  {
    if |line| < |BoardKey| || Lower(line[..|BoardKey|]) != BoardKey then None
    else ColonValue(TrimStart(line[|BoardKey|..]))
  }

  /** What the pattern makes of the line after the key and its white space: a colon,
      then the capture. */
  function ColonValue(afterKey: string): (r: Option<string>)
    ensures r.Some? ==> NoEdgeSpace(r.value)
  {
    if afterKey == [] || afterKey[0] != ':' then None
    else CaptureValue(afterKey[1..])
  }

  /** The trimmed capture of the text after the colon, when `\s*(.+)\s*$` matches it. */
  function CaptureValue(rest: string): (r: Option<string>)
    ensures r.Some? ==> NoEdgeSpace(r.value)
  {
    var value := Trim(rest);
    if value != "" && NoLineTerminator(value) then Some(value)
    else if value == "" && (exists i :: 0 <= i < |rest| && !IsLineTerminator(rest[i])) then Some("")
    else None
  }

  /** One way the pattern `/^kanbanBoard\s*:\s*(.+)\s*$/i` matches the whole of
      `line`: the key (ASCII letters compared without case, as a non-Unicode
      case-insensitive pattern does), white space, the colon at `colon`, white space,
      the capture group on `[start, end)` (at least one character, none a line
      terminator) and trailing white space up to the end of the line. */
  ghost predicate PatternMatch(line: string, colon: nat, start: nat, end: nat)
  {
    && |BoardKey| <= colon < start < end <= |line|
    && Lower(line[..|BoardKey|]) == BoardKey
    && AllSpace(line[|BoardKey|..colon])
    && line[colon] == ':'
    && AllSpace(line[colon + 1..start])
    && NoLineTerminator(line[start..end])
    && AllSpace(line[end..])
  }

  /** Whatever way the pattern matches, `KeyLineValue` yields the trimmed capture. */
  lemma MatchGivesValue(line: string, colon: nat, start: nat, end: nat)
    requires PatternMatch(line, colon, start, end)
    ensures KeyLineValue(line) == Some(Trim(line[start..end]))
  {
    SkipToColon(line, colon);
    var rest := line[colon + 1..];
    assert line[colon..][1..] == rest;
    SliceThree(line, colon + 1, start, end);
    CaptureOfMatch(line[colon + 1..start], line[start..end], line[end..]);
  }

  /** A tail of a string is the concatenation of three consecutive slices. */
  lemma SliceThree(s: string, a: nat, b: nat, c: nat)
    requires a <= b <= c <= |s|
    ensures s[a..] == s[a..b] + s[b..c] + s[c..]
  {
  }

  /** When only white space separates the key from the colon, trimming the text after
      the key leaves it starting at the colon. */
  lemma SkipToColon(line: string, colon: nat)
    requires |BoardKey| <= colon < |line| && line[colon] == ':'
    requires AllSpace(line[|BoardKey|..colon])
    ensures TrimStart(line[|BoardKey|..]) == line[colon..]
  {
    assert line[|BoardKey|..] == line[|BoardKey|..colon] + line[colon..];
    TrimStartSkipsSpace(line[|BoardKey|..colon], line[colon..]);
  }

  /** A capture group `g` between white space: the value is the trimmed capture. */
  lemma CaptureOfMatch(w1: string, g: string, w2: string)
    requires AllSpace(w1) && AllSpace(w2)
    requires g != [] && NoLineTerminator(g)
    ensures CaptureValue(w1 + g + w2) == Some(Trim(g))
  {
    TrimAbsorbsSpace(w1, g, w2);
    TrimKeepsNoLineTerminator(g);
    if Trim(g) == "" {
      assert (w1 + g + w2)[|w1|] == g[0];
    }
  }

  /** Trimming a string free of line terminators leaves it free of them. */
  lemma TrimKeepsNoLineTerminator(g: string)
    requires NoLineTerminator(g)
    ensures NoLineTerminator(Trim(g))
  {
    TrimIsInfix(g);
    var i :| 0 <= i <= |g| - |Trim(g)| && Trim(g) == g[i..i + |Trim(g)|];
    assert forall k :: 0 <= k < |Trim(g)| ==> Trim(g)[k] == g[i + k];
  }

  /** Whenever `KeyLineValue` yields a value, the pattern matches and the value is
      its trimmed capture. */
  lemma ValueGivesMatch(line: string)
    requires KeyLineValue(line).Some?
    ensures exists colon: nat, start: nat, end: nat :: PatternMatch(line, colon, start, end)
                                                      && Trim(line[start..end]) == KeyLineValue(line).value
  {
    var colon := ColonPosition(line);
    var rest := line[colon + 1..];
    var v := KeyLineValue(line).value;
    var start, end;
    if v != "" {
      start, end := NonBlankCapture(rest);
    } else {
      TrimEmptyIff(rest);
      var j :| 0 <= j < |rest| && !IsLineTerminator(rest[j]);
      start, end := j, j + 1;
      assert rest[start..end] == [rest[j]];
      TrimEmptyIff([rest[j]]);
    }
    ShiftMatch(line, colon, start, end);
  }

  /** Where the colon of a matching line sits: after the key and white space only. */
  lemma ColonPosition(line: string) returns (colon: nat)
    requires |line| >= |BoardKey|
    requires var a := TrimStart(line[|BoardKey|..]); a != [] && a[0] == ':'
    ensures |BoardKey| <= colon < |line| && line[colon] == ':'
    ensures AllSpace(line[|BoardKey|..colon])
    ensures line[colon + 1..] == TrimStart(line[|BoardKey|..])[1..]
  {
    var tail := line[|BoardKey|..];
    var afterKey := TrimStart(tail);
    TrimStartIsSuffix(tail);
    colon := |BoardKey| + |tail| - |afterKey|;
    assert line[|BoardKey|..colon] == tail[..|tail| - |afterKey|];
    assert line[colon..] == afterKey;
  }

  /** A blank-free trimmed text is a piece of `rest` between two runs of white space. */
  lemma NonBlankCapture(rest: string) returns (start: nat, end: nat)
    requires Trim(rest) != ""
    ensures start < end <= |rest| && rest[start..end] == Trim(rest)
    ensures AllSpace(rest[..start]) && AllSpace(rest[end..])
  {
    var u := TrimStart(rest);
    TrimStartIsSuffix(rest);
    var t := TrimEnd(u);
    TrimEndIsPrefix(u);
    assert t == Trim(rest);
    start := |rest| - |u|;
    end := start + |t|;
    assert rest[start..] == u;
    assert rest[start..end] == u[..|t|];
    assert rest[end..] == u[|t|..];
  }

  /** A capture found in the text after the colon is a capture of the whole line. */
  lemma ShiftMatch(line: string, colon: nat, start: nat, end: nat)
    requires |BoardKey| <= colon < |line| && line[colon] == ':'
    requires Lower(line[..|BoardKey|]) == BoardKey && AllSpace(line[|BoardKey|..colon])
    requires var rest := line[colon + 1..];
             && start < end <= |rest| && AllSpace(rest[..start]) && AllSpace(rest[end..])
             && NoLineTerminator(rest[start..end])
    ensures PatternMatch(line, colon, colon + 1 + start, colon + 1 + end)
    ensures line[colon + 1 + start..colon + 1 + end] == line[colon + 1..][start..end]
  {
    var rest := line[colon + 1..];
    assert line[colon + 1..colon + 1 + start] == rest[..start];
    assert line[colon + 1 + start..colon + 1 + end] == rest[start..end];
    assert line[colon + 1 + end..] == rest[end..];
  }

  /** What a frontmatter line says about the board flag: `true`/`yes` and
      `false`/`no` (any letter case) decide, everything else is skipped. */
  function Decision(line: string): (r: Option<bool>)
    ensures r.Some? ==> KeyLineValue(line).Some?
    ensures r == Some(true) <==> KeyLineValue(line).Some? && Lower(KeyLineValue(line).value) in {"true", "yes"}
    ensures r == Some(false) <==> KeyLineValue(line).Some? && Lower(KeyLineValue(line).value) in {"false", "no"}
  {
    match KeyLineValue(line)
    case None => None
    case Some(v) =>
      var raw := Lower(v);
      if raw == "true" || raw == "yes" then Some(true)
      else if raw == "false" || raw == "no" then Some(false)
      else None
  }

  /** The second loop of `parseBoardFrontmatter` over `[from, end)`: a deciding line
      returns its answer, other lines are skipped, and running out means "not a board". */
  function DecideFrom(lines: seq<string>, from: nat, end: nat): bool
    requires end <= |lines|
    decreases end - from
  {
    if from >= end then false
    else
      match Decision(lines[from])
      case Some(b) => b
      case None => DecideFrom(lines, from + 1, end)
  }

  /** Line `k` is the first line of `[from, end)` that decides, and it says "board". */
  predicate FirstDecidesTrue(lines: seq<string>, from: nat, end: nat, k: nat)
    requires end <= |lines|
  {
    from <= k < end && Decision(lines[k]) == Some(true)
    && forall j :: from <= j < k ==> Decision(lines[j]).None?
  }

  /** The loop answers "board" exactly when the first deciding line says true. */
  lemma {:induction false} DecideFromFirst(lines: seq<string>, from: nat, end: nat)
    requires end <= |lines|
    ensures DecideFrom(lines, from, end) <==> exists k :: FirstDecidesTrue(lines, from, end, k)
    decreases end - from
  {
    if from < end {
      var d := Decision(lines[from]);
      if d.None? {
        DecideFromFirst(lines, from + 1, end);
        SkipUndecided(lines, from, from + 1, end);
      } else if d == Some(true) {
        assert FirstDecidesTrue(lines, from, end, from);
      } else {
        StopAtFalse(lines, from, end);
      }
    }
  }

  /** A line that decides nothing does not change which line decides first. */
  lemma SkipUndecided(lines: seq<string>, from: nat, next: nat, end: nat)
    requires from < end <= |lines| && next == from + 1 && Decision(lines[from]).None?
    ensures (exists k :: FirstDecidesTrue(lines, from, end, k))
            <==> (exists k :: FirstDecidesTrue(lines, next, end, k))
  {
    if k :| FirstDecidesTrue(lines, next, end, k) {
      SkipForward(lines, from, next, end, k);
    }
    if k :| FirstDecidesTrue(lines, from, end, k) {
      SkipBackward(lines, from, next, end, k);
    }
  }

  lemma SkipForward(lines: seq<string>, from: nat, next: nat, end: nat, k: nat)
    requires from < end <= |lines| && next == from + 1 && Decision(lines[from]).None?
    requires FirstDecidesTrue(lines, next, end, k)
    ensures FirstDecidesTrue(lines, from, end, k)
  {
  }

  lemma SkipBackward(lines: seq<string>, from: nat, next: nat, end: nat, k: nat)
    requires from < end <= |lines| && next == from + 1 && Decision(lines[from]).None?
    requires FirstDecidesTrue(lines, from, end, k)
    ensures FirstDecidesTrue(lines, next, end, k)
  {
  }

  /** A first line that says "not a board" leaves no line deciding "board" first. */
  lemma StopAtFalse(lines: seq<string>, from: nat, end: nat)
    requires from < end <= |lines| && Decision(lines[from]) == Some(false)
    ensures forall k :: !FirstDecidesTrue(lines, from, end, k)
  {
    forall k
      ensures !FirstDecidesTrue(lines, from, end, k)
    {
    }
  }

  /** `parseBoardFrontmatter`: the content must open with `---` and have a later line
      that closes the block; inside the block, the first `kanbanBoard:` line with a
      recognised value decides, and the default is "not a board". */
  function ParseBoardFrontmatter(content: string): (r: bool)
    ensures r ==> |content| >= 3 && content[..3] == "---"
    ensures r ==> FindClose(Lines(content), 1).Some?
    ensures r <==> |content| >= 3 && content[..3] == "---" && FindClose(Lines(content), 1).Some?
                   && exists k :: FirstDecidesTrue(Lines(content), 1, FindClose(Lines(content), 1).value, k)
  {
    if content == "" || !("---" <= content) then false
    else
      var lines := Lines(content);
      match FindClose(lines, 1)
      case None => false
      case Some(end) =>
        DecideFromFirst(lines, 1, end);
        DecideFrom(lines, 1, end)
  }

  /** A content that opens with `---`, whose line 1 decides "board" and which has a
      closing line further down is recognised as a board. */
  lemma RecognisedWhenFlagLineFirst(content: string, k: nat)
    requires "---" <= content
    requires 2 <= k < |Lines(content)| && IsDelimiter(Lines(content)[k])
    requires Decision(Lines(content)[1]) == Some(true) && !IsDelimiter(Lines(content)[1])
    ensures ParseBoardFrontmatter(content)
  {
    var lines := Lines(content);
    var end := FindClose(lines, 1).value;
    assert DecideFrom(lines, 1, end);
  }

  /** The line `---` closes the frontmatter block. */
  lemma DashesCloseBlock()
    ensures IsDelimiter("---")
  {
    TrimNoEdgeSpace("---");
  }

  /** The line `kanbanBoard: true` decides "board".

      The literal lines are handed over through the out-parameters of small lemmas
      (`FlagKey`, `OneSpace`, `TrueWord`, `OpeningLine`, `FlagLine`) rather than
      written as constants or asserted in place: a proof that sees a string literal
      next to a recursive string function such as `Lower` or `TrimStart` lets the
      solver unfold that function along the literal, character by character, and the
      proof grows past its resource limit. Each small lemma does that work once, on
      its own, and callers see only the facts it states. */
  lemma FlagLineSaysTrue()
    ensures Decision("kanbanBoard: true") == Some(true)
  {
    var key := FlagKey();
    var gap := OneSpace();
    var word := TrueWord();
    KeyColonValue(key, gap, word);
    DecisionOfTrue(key + ([':'] + (gap + word)), word);
    FlagLineSpelling(key, gap, word);
  }

  /** The flag line is the key, a colon, a space and the word. */
  lemma FlagLineSpelling(key: string, gap: string, word: string)
    requires key == "kanbanBoard" && gap == " " && word == "true"
    ensures key + ([':'] + (gap + word)) == "kanbanBoard: true"
  {
  }

  /** The key as the plugin writes it. */
  lemma FlagKey() returns (key: string)
    ensures key == "kanbanBoard" && |key| == |BoardKey| && Lower(key) == BoardKey
  {
    var front, back := "kanban", "Board";
    key := front + back;
    calc {
      Lower(key);
      == { LowerAppend(front, back); }
      Lower(front) + Lower(back);
      == { LowerOfLower(front); }
      front + Lower(back);
      == { LowerCons('B', "oard"); LowerOfLower("oard"); }
      front + "board";
    }
  }

  /** The single space the plugin writes after the colon. */
  lemma OneSpace() returns (gap: string)
    ensures gap == " " && AllSpace(gap)
  {
    gap := " ";
  }

  /** The value the plugin writes for the key. */
  lemma TrueWord() returns (word: string)
    ensures word == "true" && NoEdgeSpace(word) && NoLineTerminator(word) && Lower(word) == "true"
  {
    word := "true";
  }

  /** A line made of a key spelled as the board key in any letter case, a colon, white
      space and a non-blank word without line breaks has that word as its value. */
  lemma KeyColonValue(key: string, gap: string, word: string)
    requires |key| == |BoardKey| && Lower(key) == BoardKey
    requires AllSpace(gap)
    requires word != "" && NoEdgeSpace(word) && NoLineTerminator(word)
    ensures KeyLineValue(key + ([':'] + (gap + word))) == Some(word)
  {
    var after := [':'] + (gap + word);
    KeyThen(key, after);
    ColonThenWord(gap, word);
  }

  /** A key spelled as the board key passes the key test, and the pattern goes on with
      what follows it. */
  lemma KeyThen(key: string, after: string)
    requires |key| == |BoardKey| && Lower(key) == BoardKey
    ensures var line := key + after;
            |line| >= |BoardKey| && Lower(line[..|BoardKey|]) == BoardKey && line[|BoardKey|..] == after
  {
    var line := key + after;
    assert line[..|BoardKey|] == key;
    assert line[|BoardKey|..] == after;
  }

  /** A colon, white space and a non-blank word without line breaks give that word. */
  lemma ColonThenWord(gap: string, word: string)
    requires AllSpace(gap)
    requires word != "" && NoEdgeSpace(word) && NoLineTerminator(word)
    ensures ColonValue(TrimStart([':'] + (gap + word))) == Some(word)
  {
    var after := [':'] + (gap + word);
    TrimStartSkipsSpace("", after);
    assert "" + after == after;
    GapThenWord(gap, word);
    assert after[1..] == gap + word;
  }

  /** White space followed by a non-blank word without line breaks captures the word. */
  lemma GapThenWord(gap: string, word: string)
    requires AllSpace(gap)
    requires word != "" && NoEdgeSpace(word) && NoLineTerminator(word)
    ensures CaptureValue(gap + word) == Some(word)
  {
    TrimSandwich(gap, word, "");
    assert gap + word + "" == gap + word;
  }

  /** A line whose value is `true` in any letter case decides "board". */
  lemma DecisionOfTrue(line: string, word: string)
    requires KeyLineValue(line) == Some(word) && Lower(word) == "true"
    ensures Decision(line) == Some(true)
  {
  }

  lemma FlagLineIsNotDelimiter()
    ensures !IsDelimiter("kanbanBoard: true")
  {
    assert TrimStart("kanbanBoard: true") == "kanbanBoard: true";
    assert TrimEnd("kanbanBoard: true") == "kanbanBoard: true";
  }

  /** Any text laid out as `---`, `kanbanBoard: true`, some lines, `---`, some lines,
      joined with line feeds, is recognised as a board, whatever the other lines
      hold (even line breaks of their own). */
  lemma JoinedBoardIsBoard(middle: seq<string>, tail: seq<string>)
    requires |middle| >= 1 && |tail| >= 1
    ensures ParseBoardFrontmatter(Join(["---", "kanbanBoard: true"] + middle + ["---"] + tail, '\n'))
  {
    var open := OpeningLine();
    var flag := FlagLine();
    FlagLineSaysTrue();
    FlagLineIsNotDelimiter();
    LayoutIsBoard(open, flag, middle, tail);
  }

  /** The opening and closing line `---` and what the parser makes of it. */
  lemma OpeningLine() returns (open: string)
    ensures open == "---" && '\n' !in open && '\r' !in open && IsDelimiter(open)
  {
    open := "---";
    DashesCloseBlock();
  }

  /** The line `kanbanBoard: true` holds no line break. */
  lemma FlagLine() returns (flag: string)
    ensures flag == "kanbanBoard: true" && '\n' !in flag && '\r' !in flag
  {
    flag := "kanbanBoard: true";
  }

  lemma LayoutIsBoard(open: string, flag: string, middle: seq<string>, tail: seq<string>)
    requires |middle| >= 1 && |tail| >= 1
    requires open == "---"
    requires '\n' !in open && '\n' !in flag && '\r' !in open && '\r' !in flag
    requires IsDelimiter(open) && !IsDelimiter(flag) && Decision(flag) == Some(true)
    ensures ParseBoardFrontmatter(Join([open, flag] + middle + [open] + tail, '\n'))
  {
    var k := LayoutLines(open, flag, open, middle, tail);
    RecognisedWhenFlagLineFirst(Join([open, flag] + middle + [open] + tail, '\n'), k);
  }

  /** The lines of a layout `a`, `b`, some lines, `c`, some lines: the text starts with
      `a`, line 1 is `b` and line `k` (not the last) is `c`, when none of the three
      holds a line feed or carriage return. */
  lemma LayoutLines(a: string, b: string, c: string, middle: seq<string>, tail: seq<string>) returns (k: nat)
    requires |middle| >= 1 && |tail| >= 1
    requires '\n' !in a && '\n' !in b && '\n' !in c
    requires '\r' !in b && '\r' !in c
    ensures var content := Join([a, b] + middle + [c] + tail, '\n');
            var lines := Lines(content);
            a <= content && 2 <= k < |lines| && lines[1] == b && lines[k] == c
  {
    SplitNoSeparator(a, '\n');
    SplitNoSeparator(b, '\n');
    SplitNoSeparator(c, '\n');
    LayoutText(a, b, c, middle, tail);
    k := LayoutSplit(a, b, c, middle, tail);
  }

  /** The line-feed pieces of a layout `a`, `b`, some lines, `c`, some lines, where the
      fixed lines `a`, `b` and `c` hold no line feed: those stay whole pieces, `c` at
      index `k`, which is not the last piece. */
  lemma LayoutSplit(a: string, b: string, c: string, middle: seq<string>, tail: seq<string>) returns (k: nat)
    requires |middle| >= 1 && |tail| >= 1
    requires Split(a, '\n') == [a] && Split(b, '\n') == [b] && Split(c, '\n') == [c]
    ensures var raw := Split(Join([a, b] + middle + [c] + tail, '\n'), '\n');
            2 <= k < |raw| - 1 && raw[0] == a && raw[1] == b && raw[k] == c
  {
    var n := '\n';
    var j1, j2 := Join(middle, n), Join(tail, n);
    var r3 := c + [n] + j2;
    var r2 := j1 + [n] + r3;
    var r1 := b + [n] + r2;
    calc {
      Split(Join([a, b] + middle + [c] + tail, n), n);
      == { LayoutText(a, b, c, middle, tail); }
      Split(a + [n] + r1, n);
      == { SplitAppend(a, r1, n); }
      [a] + Split(r1, n);
      == { SplitAppend(b, r2, n); }
      [a] + ([b] + Split(r2, n));
      == { SplitAppend(j1, r3, n); }
      [a] + ([b] + (Split(j1, n) + Split(r3, n)));
      == { SplitAppend(c, j2, n); }
      [a] + ([b] + (Split(j1, n) + ([c] + Split(j2, n))));
    }
    k := 2 + |Split(j1, n)|;
    PiecesAt(a, b, Split(j1, n), c, Split(j2, n));
  }

  /** Where the fixed lines sit in the pieces `a`, `b`, `p`, `c`, `q`. */
  lemma PiecesAt(a: string, b: string, p: seq<string>, c: string, q: seq<string>)
    requires |q| >= 1
    ensures var raw := [a] + ([b] + (p + ([c] + q)));
            2 + |p| < |raw| - 1 && raw[0] == a && raw[1] == b && raw[2 + |p|] == c
  {
    var raw := [a] + ([b] + (p + ([c] + q)));
    assert raw[2..] == p + ([c] + q);
    assert raw[2 + |p|] == raw[2..][|p|];
  }

  lemma LayoutText(a: string, b: string, c: string, middle: seq<string>, tail: seq<string>)
    requires |middle| >= 1 && |tail| >= 1
    ensures var n := '\n';
            Join([a, b] + middle + [c] + tail, n) == a + [n] + (b + [n] + (Join(middle, n) + [n] + (c + [n] + Join(tail, n))))
  {
    var n := '\n';
    JoinAppend([a, b] + middle, [c] + tail, n);
    JoinAppend([a, b], middle, n);
    JoinAppend([c], tail, n);
    assert [a, b] + middle + [c] + tail == ([a, b] + middle) + ([c] + tail);
    assert [a, b][1..] == [b];
    assert Join([a, b], n) == a + [n] + b;
  }
}
