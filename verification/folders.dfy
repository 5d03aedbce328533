/** Folder and vault-path string helpers of the plugin (main.js:966-988, 1155-1157). */
module Folders {

  /** The two path separators the plugin strips: `/` and `\`. */
  predicate IsSep(c: char)
  {
    c == '/' || c == '\\'
  }

  predicate AllSeps(s: string)
  {
    forall i :: 0 <= i < |s| ==> IsSep(s[i])
  }

  /** `s.replace(/[\\/]+$/, "")`: the longest prefix of `s` not ending in a separator. */
  function StripTrailingSeps(s: string): (r: string)
    ensures r <= s
    ensures r == [] || !IsSep(r[|r| - 1])
  {
    if |s| > 0 && IsSep(s[|s| - 1]) then StripTrailingSeps(s[..|s| - 1]) else s
  }

  /** `StripTrailingSeps` removes separators only. */
  lemma {:induction false} StripTrailingSepsRemovesSeps(s: string)
    ensures AllSeps(s[|StripTrailingSeps(s)|..])
  {
    if |s| > 0 && IsSep(s[|s| - 1]) {
      StripTrailingSepsRemovesSeps(s[..|s| - 1]);
      var r := StripTrailingSeps(s);
      assert forall i :: |r| <= i < |s| - 1 ==> s[i] == s[..|s| - 1][|r|..][i - |r|];
    }
  }

  /** `s.replace(/^[/\\]+/, "")`: the longest suffix of `s` not starting with a separator. */
  function StripLeadingSeps(s: string): (r: string)
    ensures |r| <= |s|
    ensures r == [] || !IsSep(r[0])
  {
    if |s| > 0 && IsSep(s[0]) then StripLeadingSeps(s[1..]) else s
  }

  /** `StripLeadingSeps` removes a prefix of separators and nothing else. */
  lemma {:induction false} StripLeadingSepsIsSuffix(s: string)
    ensures var r := StripLeadingSeps(s); r == s[|s| - |r|..] && AllSeps(s[..|s| - |r|])
  {
    if |s| > 0 && IsSep(s[0]) {
      StripLeadingSepsIsSuffix(s[1..]);
      var r := StripLeadingSeps(s);
      assert s[1..][|s| - 1 - |r|..] == s[|s| - |r|..];
      assert forall i :: 1 <= i < |s| - |r| ==> s[i] == s[1..][..|s| - 1 - |r|][i - 1];
    }
  }

  /** `normalizeFolder`: the folder without its trailing separators; the empty
      folder stays empty. */
  function NormalizeFolder(folder: string): (r: string)
    ensures r <= folder
    ensures r == [] || !IsSep(r[|r| - 1])
  {
    if folder == "" then "" else StripTrailingSeps(folder)
  }

  /** What `NormalizeFolder` removes is a run of trailing separators. */
  lemma NormalizeFolderRemovesSeps(folder: string)
    ensures AllSeps(folder[|NormalizeFolder(folder)|..])
  {
    if folder != "" { StripTrailingSepsRemovesSeps(folder); }
  }

  /** `normalizeRelativeFolder`: the folder without leading or trailing separators. */
  function NormalizeRelativeFolder(folder: string): (r: string)
    ensures r == [] || (!IsSep(r[0]) && !IsSep(r[|r| - 1]))
  {
    var normalized := NormalizeFolder(folder);
    StripLeadingSepsIsSuffix(normalized);
    if normalized == "" then "" else StripLeadingSeps(normalized)
  }

  /** What relative-folder normalisation removes is separators at the two ends and
      nothing else. */
  lemma NormalizeRelativeFolderIsInfix(folder: string)
    ensures var r := NormalizeRelativeFolder(folder);
            exists i :: 0 <= i <= |folder| - |r| && r == folder[i..i + |r|]
                        && AllSeps(folder[..i]) && AllSeps(folder[i + |r|..])
  {
    var n := NormalizeFolder(folder);
    NormalizeFolderRemovesSeps(folder);
    StripLeadingSepsIsSuffix(n);
    if n == "" {
      assert folder[0..] == folder && folder[0..0] == "";
      assert AllSeps(folder[..0]);
    } else {
      var r := StripLeadingSeps(n);
      var i := |n| - |r|;
      assert r == folder[i..i + |r|];
      assert folder[..i] == n[..i];
      assert folder[i + |r|..] == folder[|n|..];
    }
  }

  /** Normalising a folder twice is the same as normalising it once. */
  lemma NormalizeFolderIdempotent(folder: string)
    ensures NormalizeFolder(NormalizeFolder(folder)) == NormalizeFolder(folder)
  {
  }

  /** Relative-folder normalisation is idempotent. */
  lemma NormalizeRelativeFolderIdempotent(folder: string)
    ensures NormalizeRelativeFolder(NormalizeRelativeFolder(folder)) == NormalizeRelativeFolder(folder)
  {
    var r := NormalizeRelativeFolder(folder);
    if r != [] {
      assert NormalizeFolder(r) == r;
      assert StripLeadingSeps(r) == r;
    }
  }

  /** A folder that is all separators (or empty) normalises to the empty folder,
      and no other folder does. */
  lemma NormalizeRelativeFolderEmptyIff(folder: string)
    ensures NormalizeRelativeFolder(folder) == "" <==> AllSeps(folder)
  {
    var n := NormalizeFolder(folder);
    NormalizeFolderRemovesSeps(folder);
    if n != "" {
      StripLeadingSepsIsSuffix(n);
      assert !IsSep(n[|n| - 1]) && n[|n| - 1] == folder[|n| - 1];
    } else {
      assert folder[0..] == folder;
    }
  }

  /** `resolveFolderForBoard`: the tracked-notes folder resolved against the folder
      holding the board note (`parentPath`, empty when the board has no parent). */
  function ResolveFolderForBoard(parentPath: string, folder: string): (r: string)
    ensures r == "" <==> NormalizeRelativeFolder(folder) == ""
    ensures parentPath == "" ==> r == NormalizeRelativeFolder(folder)
    ensures parentPath != "" && r != "" ==> r == parentPath + "/" + NormalizeRelativeFolder(folder)
  {
    var normalized := NormalizeRelativeFolder(folder);
    if normalized == "" then ""
    else if parentPath != "" then parentPath + "/" + normalized
    else normalized
  }

  /** `isFileInFolder`: the file's path lies under `folder/`; an empty folder
      (after normalisation) holds nothing. */
  predicate IsFileInFolder(path: string, folder: string)
  {
    var normalized := NormalizeFolder(folder);
    normalized != "" && normalized + "/" <= path
  }

  /** A resolved folder never ends in a separator, so normalising it is the identity. */
  lemma ResolvedFolderIsNormal(parentPath: string, folder: string)
    ensures NormalizeFolder(ResolveFolderForBoard(parentPath, folder)) == ResolveFolderForBoard(parentPath, folder)
  {
    var r := ResolveFolderForBoard(parentPath, folder);
    var n := NormalizeRelativeFolder(folder);
    if r != "" {
      assert r[|r| - 1] == n[|n| - 1];
      NormalizeFolderKeepsNoTrailing(r);
    }
  }

  /** A folder with no trailing separator is already normal. */
  lemma NormalizeFolderKeepsNoTrailing(s: string)
    requires s == [] || !IsSep(s[|s| - 1])
    ensures NormalizeFolder(s) == s
  {
  }

  /** Every path `resolved/name` is in the resolved folder, whatever `name` is, as
      long as the folder did not normalise away. */
  lemma FileInResolvedFolder(parentPath: string, folder: string, name: string)
    requires ResolveFolderForBoard(parentPath, folder) != ""
    ensures IsFileInFolder(ResolveFolderForBoard(parentPath, folder) + "/" + name,
                           ResolveFolderForBoard(parentPath, folder))
  {
    ResolvedFolderIsNormal(parentPath, folder);
    var r := ResolveFolderForBoard(parentPath, folder);
    assert r + "/" <= r + "/" + name;
  }

  /** A separator at the end of the folder setting changes nothing: `Kanban/`,
      `Kanban\\` and `Kanban` hold the same files. */
  lemma TrailingSeparatorIgnored(path: string, folder: string, c: char)
    requires IsSep(c)
    ensures IsFileInFolder(path, folder + [c]) == IsFileInFolder(path, folder)
  {
    assert (folder + [c])[..|folder|] == folder;
  }

  /** Every position of a separator-only suffix holds a separator. */
  lemma AllSepsFrom(s: string, start: nat)
    requires start <= |s| && AllSeps(s[start..])
    ensures forall k :: start <= k < |s| ==> IsSep(s[k])
  {
    forall k | start <= k < |s|
      ensures IsSep(s[k])
    {
      assert s[start..][k - start] == s[k];
    }
  }

  /** A file inside a sub-folder is inside the folder as well. The folder must not end
      in a separator: with `a\` as the folder, the path `a\/g/x` lies in `a\/g` but
      not in `a\`, whose test looks for `a/`. */
  lemma SubfolderInFolder(path: string, folder: string, sub: string)
    requires folder != "" && !IsSep(folder[|folder| - 1])
    requires IsFileInFolder(path, folder + "/" + sub)
    ensures IsFileInFolder(path, folder)
  {
    var whole := folder + "/" + sub;
    var n := NormalizeFolder(whole);
    NormalizeFolderRemovesSeps(whole);
    AllSepsFrom(whole, |n|);
    assert !IsSep(whole[|folder| - 1]);
    assert path[..|folder| + 1] == n[..|folder|] + [whole[|folder|]];
    assert folder + "/" == path[..|folder| + 1];
  }

  /** `c` with a backslash turned into a forward slash. */
  function ForwardSlash(c: char): char
  {
    if c == '\\' then '/' else c
  }

  /** `path.replace(/\\/g, "/")`. */
  function ReplaceBackslashes(path: string): (r: string)
    ensures |r| == |path|
    ensures forall i :: 0 <= i < |path| ==> r[i] == ForwardSlash(path[i])
    ensures '\\' !in r
  {
    if path == "" then "" else [ForwardSlash(path[0])] + ReplaceBackslashes(path[1..])
  }

  /** `s.replace(/^\/+/, "")`. */
  function StripLeadingSlashes(s: string): (r: string)
    ensures |r| <= |s| && r == s[|s| - |r|..]
    ensures r == [] || r[0] != '/'
  {
    if |s| > 0 && s[0] == '/' then StripLeadingSlashes(s[1..]) else s
  }

  /** Replacing backslashes and then stripping leading slashes is the same as
      stripping leading separators of both kinds and then replacing backslashes. */
  lemma {:induction false} StripAfterReplace(s: string)
    ensures StripLeadingSlashes(ReplaceBackslashes(s)) == ReplaceBackslashes(StripLeadingSeps(s))
  {
    if |s| > 0 {
      assert ReplaceBackslashes(s) == [ForwardSlash(s[0])] + ReplaceBackslashes(s[1..]);
      if IsSep(s[0]) {
        assert ReplaceBackslashes(s)[1..] == ReplaceBackslashes(s[1..]);
        StripAfterReplace(s[1..]);
      }
    }
  }

  /** `normalizeVaultPath`: backslashes become slashes, then leading slashes go. The
      result is the path without its leading separators of either kind, with every
      backslash replaced. */
  function NormalizeVaultPath(path: string): (r: string)
    ensures r == ReplaceBackslashes(StripLeadingSeps(path))
    ensures '\\' !in r
    ensures r == [] || r[0] != '/'
  {
    StripAfterReplace(path);
    StripLeadingSlashes(ReplaceBackslashes(path))
  }

  /** Normalising a vault path twice is the same as normalising it once. */
  lemma NormalizeVaultPathIdempotent(path: string)
    ensures NormalizeVaultPath(NormalizeVaultPath(path)) == NormalizeVaultPath(path)
  {
    var r := NormalizeVaultPath(path);
    assert ReplaceBackslashes(r) == r;
  }
}
