/** File names and paths the plugin derives: the collision-free path of
    `getUniqueFilepath` (main.js:1239-1251), the title sanitiser shared by note and
    board creation (main.js:1204, 1298, 1341) and the link target read from dragged
    text (main.js:1096-1105). */
module Paths {
  import opened Wrappers
  import opened Text

  /** The regular-expression class `\w`: ASCII letters, digits and `_`. */
  predicate IsWordChar(c: char)
  {
    ('a' <= c <= 'z') || ('A' <= c <= 'Z') || ('0' <= c <= '9') || c == '_'
  }

  /** What `(\.\w+)` matches: a dot followed by at least one word character. */
  predicate IsExtension(e: string)
  {
    |e| >= 2 && e[0] == '.' && forall i :: 1 <= i < |e| ==> IsWordChar(e[i])
  }

  /** The index of the last occurrence of `c` in `s`. */
  function LastIndexOf(s: string, c: char): (r: Option<nat>)
    ensures r.Some? ==> r.value < |s| && s[r.value] == c && c !in s[r.value + 1..]
    ensures r.None? ==> c !in s
  {
    if s == [] then None
    else if s[|s| - 1] == c then Some(|s| - 1)
    else
      var r := LastIndexOf(s[..|s| - 1], c);
      assert s == s[..|s| - 1] + [s[|s| - 1]];
      r
  }

  /** `path.match(/^(.*?)(\.\w+)$/)`: the base and the extension, with an empty
      extension (and the whole path as base) when the pattern does not match.
      `.` does not cross a line terminator, so a path holding one never matches. */
  function SplitExtension(path: string): (parts: (string, string))
    ensures parts.0 + parts.1 == path
    ensures parts.1 != "" ==> IsExtension(parts.1) && NoLineTerminator(path)
  {
    if !NoLineTerminator(path) then (path, "")
    else
      match LastIndexOf(path, '.')
      case None => (path, "")
      case Some(p) =>
        if IsExtension(path[p..]) then
          assert path[..p] + path[p..] == path;
          (path[..p], path[p..])
        else (path, "")
  }

  /** The pattern matches exactly when some suffix of the path is an extension and
      the path has no line terminator; the extension found is the only such suffix,
      so the lazy `(.*?)` and a greedy one would agree. */
  lemma SplitExtensionMatches(path: string)
    ensures var (base, ext) := SplitExtension(path);
            ext != "" <==> NoLineTerminator(path) && exists k :: 0 <= k <= |path| && IsExtension(path[k..])
    ensures var (base, ext) := SplitExtension(path);
            forall k :: 0 <= k <= |path| && IsExtension(path[k..]) ==> k == |base| || !NoLineTerminator(path)
  {
    var (base, ext) := SplitExtension(path);
    if ext != "" {
      assert IsExtension(path[|base|..]);
    }
    forall k | 0 <= k <= |path| && IsExtension(path[k..]) && NoLineTerminator(path)
      ensures k == |base| && ext != ""
    {
      var p := LastIndexOf(path, '.');
      assert path[k] == path[k..][0];
      assert p.Some?;
    }
  }

  /** The `n`-th alternative path `${base} ${n}${ext}`. */
  function Candidate(base: string, ext: string, n: nat): string
  {
    base + " " + NatToString(n) + ext
  }

  /** Different counters give different alternative paths. */
  lemma CandidateInjective(base: string, ext: string, a: nat, b: nat)
    requires Candidate(base, ext, a) == Candidate(base, ext, b)
    ensures a == b
  {
    var sa, sb := NatToString(a), NatToString(b);
    if |sa| == |sb| {
      assert sa == Candidate(base, ext, a)[|base| + 1..|base| + 1 + |sa|];
      assert sb == Candidate(base, ext, b)[|base| + 1..|base| + 1 + |sb|];
      NatToStringInjective(a, b);
    }
  }

  /** Every alternative from 1 up to (not including) `n` already exists. */
  ghost predicate AllTaken(base: string, ext: string, existing: set<string>, n: nat)
  {
    forall k: nat :: 1 <= k < n ==> Candidate(base, ext, k) in existing
  }

  /** There are only as many taken alternatives as existing paths. */
  lemma TakenBound(base: string, ext: string, existing: set<string>, n: nat)
    requires n >= 1 && AllTaken(base, ext, existing, n)
    ensures n - 1 <= |existing|
  {
    var taken := set k: nat | 1 <= k < n :: Candidate(base, ext, k);
    assert taken <= existing;
    TakenSize(base, ext, n);
    SubsetSize(taken, existing);
  }

  /** The alternatives 1 .. n-1 are n-1 different paths. */
  lemma {:induction false} TakenSize(base: string, ext: string, n: nat)
    requires n >= 1
    ensures |set k: nat | 1 <= k < n :: Candidate(base, ext, k)| == n - 1
  {
    if n > 1 {
      TakenSize(base, ext, n - 1);
      var smaller := set k: nat | 1 <= k < n - 1 :: Candidate(base, ext, k);
      if Candidate(base, ext, n - 1) in smaller {
        var k: nat :| 1 <= k < n - 1 && Candidate(base, ext, k) == Candidate(base, ext, n - 1);
        CandidateInjective(base, ext, k, n - 1);
      }
      assert (set k: nat | 1 <= k < n :: Candidate(base, ext, k)) == smaller + {Candidate(base, ext, n - 1)};
    } else {
      assert (set k: nat | 1 <= k < n :: Candidate(base, ext, k)) == {};
    }
  }

  lemma SubsetSize(a: set<string>, b: set<string>)
    requires a <= b
    ensures |a| <= |b|
  {
    assert b == a + (b - a);
  }

  /** The first free alternative at or above `n`; the loop of `getUniqueFilepath`.
      It stops because at most `|existing|` alternatives can be taken. */
  function FirstFree(base: string, ext: string, existing: set<string>, n: nat): (r: nat)
    requires n >= 1 && AllTaken(base, ext, existing, n)
    ensures r >= n && Candidate(base, ext, r) !in existing
    ensures AllTaken(base, ext, existing, r)
    decreases |existing| + 1 - n
  {
    TakenBound(base, ext, existing, n);
    if Candidate(base, ext, n) !in existing then n
    else
      TakenBound(base, ext, existing, n + 1);
      FirstFree(base, ext, existing, n + 1)
  }

  /** `getUniqueFilepath`: the path itself when nothing exists there, otherwise the
      first alternative `${base} ${n}${ext}` (n = 1, 2, ...) that is free. */
  function UniqueFilepath(path: string, existing: set<string>): (r: string)
    ensures r !in existing
    ensures path !in existing ==> r == path
    ensures path in existing ==>
              var (base, ext) := SplitExtension(path);
              exists n: nat :: n >= 1 && r == Candidate(base, ext, n) && AllTaken(base, ext, existing, n)
  {
    if path !in existing then path
    else
      var (base, ext) := SplitExtension(path);
      Candidate(base, ext, FirstFree(base, ext, existing, 1))
  }

  /** The alternative chosen is the least free one: no other free alternative has a
      smaller counter. */
  lemma UniqueFilepathLeast(path: string, existing: set<string>, m: nat)
    requires path in existing
    requires m >= 1 && Candidate(SplitExtension(path).0, SplitExtension(path).1, m) !in existing
    ensures exists n: nat :: 1 <= n <= m && UniqueFilepath(path, existing) == Candidate(SplitExtension(path).0, SplitExtension(path).1, n)
  {
    var (base, ext) := SplitExtension(path);
    var n := FirstFree(base, ext, existing, 1);
    assert UniqueFilepath(path, existing) == Candidate(base, ext, n);
  }

  /** A prefix of the path that stops before its extension survives in every
      alternative. */
  lemma UniqueFilepathKeepsPrefix(path: string, existing: set<string>, prefix: string)
    requires prefix <= path && |prefix| <= |SplitExtension(path).0|
    ensures prefix <= UniqueFilepath(path, existing)
  {
    var (base, ext) := SplitExtension(path);
    assert prefix <= base;
  }

  /** The extension of `stem.md` is `.md` (or nothing, when a line terminator blocks
      the pattern), so the base keeps the whole stem. */
  lemma MarkdownBase(stem: string)
    ensures |SplitExtension(stem + ".md").0| >= |stem|
  {
    var path := stem + ".md";
    if NoLineTerminator(path) {
      var p := LastIndexOf(path, '.');
      assert path[|stem|] == '.';
      assert p.Some?;
    }
  }

  /** The characters `[\\/:*?"<>|]` that titles lose. */
  predicate IsForbiddenTitleChar(c: char)
  {
    c == '\\' || c == '/' || c == ':' || c == '*' || c == '?' || c == '"' || c == '<' || c == '>' || c == '|'
  }

  /** `name.replace(/[\\/:*?"<>|]/g, "")`. */
  function RemoveForbidden(name: string): (r: string)
    ensures |r| <= |name|
  {
    if name == [] then []
    else Kept(name[0]) + RemoveForbidden(name[1..])
  }

  /** The removal keeps no forbidden character, and a character occurs in the result
      exactly when it is an allowed character of the input. */
  lemma {:induction false} RemoveForbiddenChars(name: string)
    ensures var r := RemoveForbidden(name);
            && (forall i :: 0 <= i < |r| ==> !IsForbiddenTitleChar(r[i]))
            && (forall c :: c in r <==> c in name && !IsForbiddenTitleChar(c))
  {
    if name != [] {
      RemoveForbiddenChars(name[1..]);
      assert name == [name[0]] + name[1..];
    }
  }

  /** Removal works piece by piece: the result for `a + b` is the result for `a`
      followed by the result for `b`, so order and repetitions are kept. */
  lemma {:induction false} RemoveForbiddenAppend(a: string, b: string)
    ensures RemoveForbidden(a + b) == RemoveForbidden(a) + RemoveForbidden(b)
  {
    if a == [] {
      assert a + b == b;
    } else {
      var c, t := a[0], a[1..];
      calc {
        RemoveForbidden(a + b);
        == { ConsRegroup(a, b); }
        RemoveForbidden([c] + (t + b));
        == { RemoveForbiddenCons(c, t + b); }
        Kept(c) + RemoveForbidden(t + b);
        == { RemoveForbiddenAppend(t, b); }
        Kept(c) + (RemoveForbidden(t) + RemoveForbidden(b));
        == { RemoveForbiddenCons(c, t); assert a == [c] + t; }
        RemoveForbidden(a) + RemoveForbidden(b);
      }
    }
  }

  /** What removal keeps of one character. */
  function Kept(c: char): string
  {
    if IsForbiddenTitleChar(c) then [] else [c]
  }

  /** Removal from a string with a known first character. */
  lemma RemoveForbiddenCons(c: char, t: string)
    ensures RemoveForbidden([c] + t) == Kept(c) + RemoveForbidden(t)
  {
    assert ([c] + t)[0] == c && ([c] + t)[1..] == t;
  }

  /** A non-empty front part split off at its first character. */
  lemma ConsRegroup(a: string, b: string)
    requires a != []
    ensures a + b == [a[0]] + (a[1..] + b)
  {
  }

  /** A string of forbidden characters only is removed completely. */
  lemma {:induction false} RemoveForbiddenDropsAll(s: string)
    requires forall i :: 0 <= i < |s| ==> IsForbiddenTitleChar(s[i])
    ensures RemoveForbidden(s) == ""
  {
    if s != [] {
      RemoveForbiddenDropsAll(s[1..]);
    }
  }

  /** The title sanitiser: forbidden characters removed, then white space trimmed. */
  function SanitizeTitle(name: string): (r: string)
    ensures NoEdgeSpace(r)
    ensures forall i :: 0 <= i < |r| ==> !IsForbiddenTitleChar(r[i])
  {
    var removed := RemoveForbidden(name);
    RemoveForbiddenChars(name);
    TrimIsInfix(removed);
    var r := Trim(removed);
    assert forall i :: 0 <= i < |r| ==> r[i] in removed;
    r
  }

  /** A sanitised title is what is left of the name once forbidden characters are
      removed, less white space at the two ends and nothing else. */
  lemma SanitizeTitleIsInfix(name: string)
    ensures TrimmedFrom(SanitizeTitle(name), RemoveForbidden(name))
  {
    var removed := RemoveForbidden(name);
    TrimIsInfix(removed);
    assert TrimmedFrom(Trim(removed), removed);
    assert SanitizeTitle(name) == Trim(removed);
  }

  /** A sanitised title is left as it is by a second sanitisation. */
  lemma SanitizeTitleIdempotent(name: string)
    ensures SanitizeTitle(SanitizeTitle(name)) == SanitizeTitle(name)
  {
    var r := SanitizeTitle(name);
    RemoveForbiddenKeepsClean(r);
    TrimNoEdgeSpace(r);
  }

  /** A title with no forbidden character and no surrounding white space is kept as it is. */
  lemma SanitizeTitleKeepsClean(name: string)
    requires forall i :: 0 <= i < |name| ==> !IsForbiddenTitleChar(name[i])
    requires NoEdgeSpace(name)
    ensures SanitizeTitle(name) == name
  {
    RemoveForbiddenKeepsClean(name);
    TrimNoEdgeSpace(name);
  }

  /** A string free of forbidden characters is left as it is. */
  lemma {:induction false} RemoveForbiddenKeepsClean(s: string)
    requires forall i :: 0 <= i < |s| ==> !IsForbiddenTitleChar(s[i])
    ensures RemoveForbidden(s) == s
  {
    if s != [] {
      RemoveForbiddenKeepsClean(s[1..]);
    }
  }

  /** A title sanitises to nothing (and is rejected) exactly when every character is
      forbidden or white space. */
  lemma SanitizeTitleEmptyIff(name: string)
    ensures SanitizeTitle(name) == "" <==>
            forall i :: 0 <= i < |name| ==> IsForbiddenTitleChar(name[i]) || IsSpace(name[i])
  {
    var removed := RemoveForbidden(name);
    RemoveForbiddenChars(name);
    TrimEmptyIff(removed);
    if AllSpace(removed) {
      forall i | 0 <= i < |name| && !IsForbiddenTitleChar(name[i]) ensures IsSpace(name[i])
      {
        assert name[i] in removed;
      }
    }
    if forall i :: 0 <= i < |name| ==> IsForbiddenTitleChar(name[i]) || IsSpace(name[i]) {
      forall i | 0 <= i < |removed| ensures IsSpace(removed[i])
      {
        assert removed[i] in name;
      }
    }
  }

  /** `/^\[\[(.+?)\]\]$/` on dragged text: the inside of a whole-text wiki link. The
      lazy group must still reach the closing brackets at the very end, so it is
      everything between the outer brackets, provided that is non-empty and holds no
      line terminator. */
  function WikiLinkInner(text: string): (r: Option<string>)
    ensures r.Some? ==> "[[" + r.value + "]]" == text && r.value != "" && NoLineTerminator(r.value)
    ensures r.None? ==> forall inner :: inner != "" && NoLineTerminator(inner) ==> "[[" + inner + "]]" != text
  {
    if |text| >= 5 && text[..2] == "[[" && text[|text| - 2..] == "]]" && NoLineTerminator(text[2..|text| - 2]) then
      assert text == "[[" + text[2..|text| - 2] + "]]";
      Some(text[2..|text| - 2])
    else
      assert forall inner :: "[[" + inner + "]]" == text ==> inner == text[2..|text| - 2];
      None
  }

  /** `link.split(c)[0]` when `link` holds `c`: the part before the first `c`. */
  function BeforeFirst(link: string, c: char): (r: string)
    ensures r <= link && c !in r
    ensures c in link ==> |r| < |link| && link[|r|] == c
    ensures c !in link ==> r == link
  {
    if c in link then
      SplitHead(link, c);
      SplitPiecesFree(link, c);
      Split(link, c)[0]
    else link
  }

  /** The note name `getFileFromDragText` looks up: the text (or the inside of a
      whole-text wiki link) cut at the first `|` (alias) and then at the first `#`
      (heading); empty text yields nothing. */
  function DragTextTarget(text: string): (r: Option<string>)
    ensures r.None? <==> text == ""
    ensures r.Some? ==> '|' !in r.value && '#' !in r.value
    ensures r.Some? ==> r.value <= WikiLinkInner(text).GetOr(text)
    // The cut is at the first `|` or `#` of the link, or at its end when it has neither.
    ensures r.Some? ==> var link := WikiLinkInner(text).GetOr(text);
                        |r.value| == |link| || link[|r.value|] == '|' || link[|r.value|] == '#'
  {
    if text == "" then None
    else
      var link := WikiLinkInner(text).GetOr(text);
      var noAlias := BeforeFirst(link, '|');
      Some(BeforeFirst(noAlias, '#'))
  }

  /** Cutting at the first `c` keeps every front part free of `c`. */
  lemma BeforeFirstKeepsPrefix(link: string, c: char, front: string)
    requires front <= link && c !in front
    ensures front <= BeforeFirst(link, c)
  {
  }

  /** Cutting at the first `c` right behind a `c`-free front part gives that part. */
  lemma BeforeFirstAt(link: string, c: char, front: string)
    requires front <= link && c !in front
    requires |link| == |front| || link[|front|] == c
    ensures BeforeFirst(link, c) == front
  {
    BeforeFirstKeepsPrefix(link, c, front);
  }

  /** A wiki link with a heading and/or alias points at its note name. */
  lemma WikiLinkTarget(name: string, suffix: string)
    requires name != "" && '|' !in name && '#' !in name
    requires NoLineTerminator(name + suffix)
    requires suffix == "" || suffix[0] == '|' || suffix[0] == '#'
    ensures DragTextTarget("[[" + name + suffix + "]]") == Some(name)
  {
    var text := "[[" + name + suffix + "]]";
    var inner := name + suffix;
    assert text == "[[" + inner + "]]";
    assert WikiLinkInner(text) == Some(inner);
    BeforeFirstKeepsPrefix(inner, '|', name);
    var noAlias := BeforeFirst(inner, '|');
    if suffix != "" && suffix[0] == '|' {
      BeforeFirstAt(inner, '|', name);
    } else {
      assert |noAlias| == |name| || noAlias[|name|] == inner[|name|];
    }
    BeforeFirstAt(noAlias, '#', name);
  }
}
