/** Creating board notes and task notes: `createBoard` (main.js:1294-1335),
    `createBoardInFolder` (main.js:1337-1380) and `createNoteInLane`
    (main.js:1185-1219), with the prompts' answers as parameters and the vault's
    existing paths as a set. */
module BoardNotes {
  import opened Wrappers
  import opened Text
  import opened JsValues
  import opened Folders
  import opened BoardConfig
  import opened Frontmatter
  import opened Paths
  import opened Lanes

  /** What a board-creation command ends with: the title prompt was dismissed or left
      empty, the title sanitised to nothing, or a note was written. */
  datatype Outcome = Cancelled | InvalidTitle | Created(path: string, content: string)

  /** The tracked-notes folder a new board records: the prompt's answer, else the
      configured folder, else `Kanban`. */
  function ChosenNotesFolder(answer: string, settings: Settings): (r: string)
    ensures r != ""
    ensures answer != "" ==> r == answer
    ensures answer == "" ==> r == (if settings.notesFolder != "" then settings.notesFolder else DefaultNotesFolder)
  {
    if answer != "" then answer
    else if settings.notesFolder != "" then settings.notesFolder
    else DefaultNotesFolder
  }

  /** The default lane a new board records: the configured default lane when it is one
      of the lanes, else the first lane. */
  function NewBoardDefaultLane(settings: Settings): (r: string)
    ensures r in GetLaneList(settings)
    ensures settings.defaultLane in GetLaneList(settings) ==> r == settings.defaultLane
    ensures settings.defaultLane !in GetLaneList(settings) ==> r == GetLaneList(settings)[0]
  {
    var lanes := GetLaneList(settings);
    if settings.defaultLane in lanes then settings.defaultLane else lanes[0]
  }

  /** `  - "lane"` for every lane. */
  function LaneLines(lanes: seq<string>): (r: seq<string>)
    ensures |r| == |lanes|
    ensures forall i :: 0 <= i < |lanes| ==> r[i] == "  - \"" + lanes[i] + "\""
  {
    seq(|lanes|, i requires 0 <= i < |lanes| => "  - \"" + lanes[i] + "\"")
  }

  /** One two-line YAML entry per card type. */
  function TypeLines(types: seq<CardType>): (r: seq<string>)
    ensures |r| == |types|
    ensures forall i :: 0 <= i < |types| ==>
              r[i] == "  - name: \"" + types[i].name + "\"\n    color: \"" + types[i].color + "\""
  {
    seq(|types|, i requires 0 <= i < |types| =>
          "  - name: \"" + types[i].name + "\"\n    color: \"" + types[i].color + "\"")
  }

  /** The frontmatter lines after `kanbanBoard: true` that both commands write. */
  function BoardSettingsLines(notesFolder: string, lanes: seq<string>, defaultLane: string): (r: seq<string>)
    ensures |r| == |lanes| + 3
  {
    ["kanbanFolder: \"" + notesFolder + "\"", "kanbanLanes:"] + LaneLines(lanes)
    + ["kanbanDefaultLane: \"" + defaultLane + "\""]
  }

  /** The lines after the closing `---`: a blank line, the heading, a final blank line. */
  function BodyLines(title: string): seq<string>
  {
    ["", "# " + title, ""]
  }

  /** The text `createBoard` writes: the full frontmatter, card types included, then
      the title heading. */
  function BoardText(title: string, notesFolder: string, lanes: seq<string>, defaultLane: string,
                     types: seq<CardType>): string
  {
    Join(["---", "kanbanBoard: true"]
         + BoardSettingsLines(notesFolder, lanes, defaultLane) + ["kanbanTypes:"] + TypeLines(types)
         + ["---"] + BodyLines(title), '\n')
  }

  /** The text `createBoardInFolder` writes: the same frontmatter without card types. */
  function FolderBoardText(title: string, notesFolder: string, lanes: seq<string>, defaultLane: string): string
  {
    Join(["---", "kanbanBoard: true"]
         + BoardSettingsLines(notesFolder, lanes, defaultLane)
         + ["---"] + BodyLines(title), '\n')
  }

  /** A note written by `createBoard` is recognised as a board by the text-based check,
      whatever the title, folder, lane and type strings hold. */
  lemma BoardTextIsBoard(title: string, notesFolder: string, lanes: seq<string>, defaultLane: string,
                         types: seq<CardType>)
    ensures ParseBoardFrontmatter(BoardText(title, notesFolder, lanes, defaultLane, types))
  {
    var middle := BoardSettingsLines(notesFolder, lanes, defaultLane) + ["kanbanTypes:"] + TypeLines(types);
    assert ["---", "kanbanBoard: true"] + BoardSettingsLines(notesFolder, lanes, defaultLane)
           + ["kanbanTypes:"] + TypeLines(types) + ["---"] + BodyLines(title)
        == ["---", "kanbanBoard: true"] + middle + ["---"] + BodyLines(title);
    JoinedBoardIsBoard(middle, BodyLines(title));
  }

  /** A note written by `createBoardInFolder` is recognised as a board as well. */
  lemma FolderBoardTextIsBoard(title: string, notesFolder: string, lanes: seq<string>, defaultLane: string)
    ensures ParseBoardFrontmatter(FolderBoardText(title, notesFolder, lanes, defaultLane))
  {
    JoinedBoardIsBoard(BoardSettingsLines(notesFolder, lanes, defaultLane), BodyLines(title));
  }

  /** The board-creation steps both commands share, after the title prompt, writing at
      `prefix` + title + `.md`. */
  function CreateBoardAt(prefix: string, titleAnswer: string, folderAnswer: string, settings: Settings,
                         existing: set<string>, withTypes: bool): (r: Outcome)
    ensures titleAnswer == "" <==> r.Cancelled?
    ensures r.InvalidTitle? <==> titleAnswer != "" && SanitizeTitle(titleAnswer) == ""
    ensures r.Created? ==> r.path !in existing && ParseBoardFrontmatter(r.content)
    ensures r.Created? ==> prefix + SanitizeTitle(titleAnswer) <= r.path
    ensures r.Created? && prefix + SanitizeTitle(titleAnswer) + ".md" !in existing ==>
              r.path == prefix + SanitizeTitle(titleAnswer) + ".md"
    // The path is what `getUniqueFilepath` picks for `prefix + title + ".md"`.
    ensures r.Created? ==> r.path == UniqueFilepath(prefix + SanitizeTitle(titleAnswer) + ".md", existing)
  {
    if titleAnswer == "" then Cancelled
    else
      var title := SanitizeTitle(titleAnswer);
      if title == "" then InvalidTitle
      else
        var folder := ChosenNotesFolder(folderAnswer, settings);
        var lanes := GetLaneList(settings);
        var defaultLane := NewBoardDefaultLane(settings);
        var content :=
          if withTypes then BoardText(title, folder, lanes, defaultLane, GetCardTypes(settings))
          else FolderBoardText(title, folder, lanes, defaultLane);
        BoardTextIsBoard(title, folder, lanes, defaultLane, GetCardTypes(settings));
        FolderBoardTextIsBoard(title, folder, lanes, defaultLane);
        var path := prefix + title + ".md";
        MarkdownBase(prefix + title);
        UniqueFilepathKeepsPrefix(path, existing, prefix + title);
        Created(UniqueFilepath(path, existing), content)
  }

  /** `createBoard`: a board note named after the sanitised title at the vault root,
      holding settings lanes, default lane and card types. */
  function CreateBoard(titleAnswer: string, folderAnswer: string, settings: Settings, existing: set<string>): (r: Outcome)
    ensures titleAnswer == "" <==> r.Cancelled?
    ensures r.InvalidTitle? <==> titleAnswer != "" && SanitizeTitle(titleAnswer) == ""
    ensures r.Created? ==> r.path !in existing && ParseBoardFrontmatter(r.content)
    ensures r.Created? ==> SanitizeTitle(titleAnswer) <= r.path
    ensures r.Created? && SanitizeTitle(titleAnswer) + ".md" !in existing ==>
              r.path == SanitizeTitle(titleAnswer) + ".md"
    ensures r.Created? ==> r.path == UniqueFilepath(SanitizeTitle(titleAnswer) + ".md", existing)
  {
    assert "" + SanitizeTitle(titleAnswer) == SanitizeTitle(titleAnswer);
    CreateBoardAt("", titleAnswer, folderAnswer, settings, existing, true)
  }

  /** `createBoardInFolder`: the same inside `folderPath` (the vault root when it is
      empty), without the card-type list. */
  function CreateBoardInFolder(folderPath: string, titleAnswer: string, folderAnswer: string, settings: Settings,
                               existing: set<string>): (r: Outcome)
    ensures titleAnswer == "" <==> r.Cancelled?
    ensures r.InvalidTitle? <==> titleAnswer != "" && SanitizeTitle(titleAnswer) == ""
    ensures r.Created? ==> r.path !in existing && ParseBoardFrontmatter(r.content)
    ensures r.Created? && folderPath != "" ==> folderPath + "/" <= r.path
    ensures var prefix := if folderPath != "" then folderPath + "/" else "";
            && (r.Created? ==> prefix + SanitizeTitle(titleAnswer) <= r.path)
            && (r.Created? && prefix + SanitizeTitle(titleAnswer) + ".md" !in existing ==>
                  r.path == prefix + SanitizeTitle(titleAnswer) + ".md")
            && (r.Created? ==> r.path == UniqueFilepath(prefix + SanitizeTitle(titleAnswer) + ".md", existing))
  {
    var prefix := if folderPath != "" then folderPath + "/" else "";
    var r := CreateBoardAt(prefix, titleAnswer, folderAnswer, settings, existing, false);
    assert r.Created? && folderPath != "" ==> prefix <= prefix + SanitizeTitle(titleAnswer) <= r.path;
    r
  }

  /** The frontmatter the board text's YAML denotes, when no written string holds a
      quote, a backslash or a line break. */
  function WrittenFrontmatter(notesFolder: string, lanes: seq<string>, defaultLane: string,
                              types: seq<CardType>): (fm: map<string, Value>)
    ensures fm.Keys == {BoardField, FolderField, LanesField, DefaultLaneField, CardTypesField}
  {
    map[BoardField := Bool(true), FolderField := Str(notesFolder), LanesField := Arr(StrValues(lanes)),
        DefaultLaneField := Str(defaultLane), CardTypesField := Arr(CardTypeValues(types))]
  }

  /** A board created from valid settings shows the settings' lanes, default lane and
      card types once its frontmatter is read back, as long as the lane names are
      already trimmed and the card-type names non-empty. */
  lemma NewBoardShowsSettings(board: BoardFile, folderAnswer: string, settings: Settings, current: Settings)
    requires ValidSettings(settings)
    requires forall i :: 0 <= i < |settings.lanes| ==> settings.lanes[i] != "" && NoEdgeSpace(settings.lanes[i])
    requires forall i :: 0 <= i < |settings.cardTypes| ==> settings.cardTypes[i].name != ""
    ensures var fm := WrittenFrontmatter(ChosenNotesFolder(folderAnswer, settings), GetLaneList(settings),
                                         NewBoardDefaultLane(settings), GetCardTypes(settings));
            var c := GetBoardConfig(board, fm, current);
            && c.lanes == settings.lanes
            && c.defaultLane == settings.defaultLane
            && c.cardTypes == settings.cardTypes
            && c.notesFolder == NormalizeRelativeFolder(ChosenNotesFolder(folderAnswer, settings))
  {
    var lanes := GetLaneList(settings);
    var types := GetCardTypes(settings);
    var folder := ChosenNotesFolder(folderAnswer, settings);
    var fm := WrittenFrontmatter(folder, lanes, NewBoardDefaultLane(settings), types);
    assert lanes == settings.lanes && types == settings.cardTypes;
    ParseLanesOfArray(lanes);
    assert ParseLanes(Get(fm, LanesField)) == Some(lanes);
    ParseCardTypesOfValues(types);
    assert ParseCardTypes(Get(fm, CardTypesField)) == Some(types);
    assert Get(fm, DefaultLaneField) == Str(settings.defaultLane);
    assert Get(fm, FolderField) == Str(folder);
  }

  /** The folder `createNoteInLane` writes to: the board's resolved tracked-notes folder,
      else the configured folder (or `Kanban`) resolved against the board's folder, else
      `Kanban`. */
  function NewNoteFolder(c: Config, settings: Settings): (r: string)
    ensures r != ""
    ensures c.notesFolderPath != "" ==> r == c.notesFolderPath
    // Otherwise the configured folder (or `Kanban`) resolved against the board's folder,
    // and `Kanban` when that resolves to nothing.
    ensures c.notesFolderPath == "" ==>
              var resolved := ResolveFolderForBoard(c.board.parentPath,
                                                    if settings.notesFolder != "" then settings.notesFolder else DefaultNotesFolder);
              r == (if resolved != "" then resolved else DefaultNotesFolder)
  {
    if c.notesFolderPath != "" then c.notesFolderPath
    else
      var resolved := ResolveFolderForBoard(c.board.parentPath,
                                            if settings.notesFolder != "" then settings.notesFolder else DefaultNotesFolder);
      if resolved != "" then resolved else DefaultNotesFolder
  }

  /** What `createNoteInLane` ends with: the title prompt was dismissed or left empty,
      the title sanitised to nothing, or a note was written with its status set to the
      lane and its type set when one was chosen. */
  datatype NoteOutcome =
    | NoteCancelled
    | NoteInvalidTitle
    | NoteCreated(path: string, content: string, status: string, noteType: Option<string>)

  /** `createNoteInLane`. */
  function CreateNoteInLane(lane: string, c: Config, settings: Settings, titleAnswer: string, typeAnswer: string,
                            existing: set<string>): (r: NoteOutcome)
    ensures titleAnswer == "" <==> r.NoteCancelled?
    ensures r.NoteInvalidTitle? <==> titleAnswer != "" && SanitizeTitle(titleAnswer) == ""
    ensures r.NoteCreated? ==> r.path !in existing && r.status == lane
    ensures r.NoteCreated? ==> NewNoteFolder(c, settings) + "/" + SanitizeTitle(titleAnswer) <= r.path
    // The path is what `getUniqueFilepath` picks for `folder/title.md`: that path itself
    // when it is free.
    ensures r.NoteCreated? ==>
              r.path == UniqueFilepath(NewNoteFolder(c, settings) + "/" + SanitizeTitle(titleAnswer) + ".md", existing)
    ensures r.NoteCreated? && NewNoteFolder(c, settings) + "/" + SanitizeTitle(titleAnswer) + ".md" !in existing ==>
              r.path == NewNoteFolder(c, settings) + "/" + SanitizeTitle(titleAnswer) + ".md"
    ensures r.NoteCreated? ==> r.content == "# " + SanitizeTitle(titleAnswer) + "\n"
    ensures r.NoteCreated? ==> (r.noteType.Some? <==> typeAnswer != "")
    ensures r.NoteCreated? && r.noteType.Some? ==> r.noteType.value == typeAnswer
  {
    if titleAnswer == "" then NoteCancelled
    else
      var title := SanitizeTitle(titleAnswer);
      if title == "" then NoteInvalidTitle
      else
        var stem := NewNoteFolder(c, settings) + "/" + title;
        MarkdownBase(stem);
        UniqueFilepathKeepsPrefix(stem + ".md", existing, stem);
        NoteCreated(UniqueFilepath(stem + ".md", existing), "# " + title + "\n", lane,
                    if typeAnswer != "" then Some(typeAnswer) else None)
  }

  /** A note created in a lane of a board shows up on that board in that lane: once it
      is among the vault's notes, the lane holds its card. */
  lemma NewNoteLandsInLane(board: BoardFile, frontmatter: map<string, Value>, settings: Settings, lane: string,
                           titleAnswer: string, typeAnswer: string, existing: set<string>, basename: string,
                           notes: seq<Note>, le: (string, string) -> bool)
    requires TotalPreorder(le)
    requires var c := GetBoardConfig(board, frontmatter, settings);
             lane in c.lanes && c.notesFolderPath != ""
             && CreateNoteInLane(lane, c, settings, titleAnswer, typeAnswer, existing).NoteCreated?
    ensures var c := GetBoardConfig(board, frontmatter, settings);
            var o := CreateNoteInLane(lane, c, settings, titleAnswer, typeAnswer, existing);
            var note := Note(o.path, basename, Some(o.status), o.noteType);
            var r := CollectNotesByLane(c, notes + [note], le);
            lane in r && CardFor(note, TypeMap(c.cardTypes)) in r[lane]
  {
    var c := GetBoardConfig(board, frontmatter, settings);
    var o := CreateNoteInLane(lane, c, settings, titleAnswer, typeAnswer, existing);
    var note := Note(o.path, basename, Some(o.status), o.noteType);
    ResolvedFolderIsNormal(board.parentPath, c.notesFolder);
    assert c.notesFolderPath + "/" <= c.notesFolderPath + "/" + SanitizeTitle(titleAnswer);
    assert Included(c, note);
    assert TargetLane(c, note) == lane;
    var all := notes + [note];
    assert all[|notes|] == note;
    ExactlyOneLane(c, all, le, lane, CardFor(note, TypeMap(c.cardTypes)));
  }

  /** A board whose tracked-notes folder resolves to nothing still gets its new note,
      written to the fallback folder, but tracks no note at all: every lane stays empty,
      the new note included. */
  lemma NewNoteHiddenWithoutFolder(board: BoardFile, frontmatter: map<string, Value>, settings: Settings,
                                   lane: string, titleAnswer: string, typeAnswer: string, existing: set<string>,
                                   basename: string, notes: seq<Note>, le: (string, string) -> bool)
    requires TotalPreorder(le)
    requires GetBoardConfig(board, frontmatter, settings).notesFolderPath == ""
    requires titleAnswer != "" && SanitizeTitle(titleAnswer) != ""
    ensures var c := GetBoardConfig(board, frontmatter, settings);
            CreateNoteInLane(lane, c, settings, titleAnswer, typeAnswer, existing).NoteCreated?
    ensures var c := GetBoardConfig(board, frontmatter, settings);
            var o := CreateNoteInLane(lane, c, settings, titleAnswer, typeAnswer, existing);
            var note := Note(o.path, basename, Some(o.status), o.noteType);
            var r := CollectNotesByLane(c, notes + [note], le);
            forall l :: l in r ==> r[l] == []
  {
    var c := GetBoardConfig(board, frontmatter, settings);
    var o := CreateNoteInLane(lane, c, settings, titleAnswer, typeAnswer, existing);
    var note := Note(o.path, basename, Some(o.status), o.noteType);
    ExcludedNotesAbsent(c, notes + [note], le);
  }

  /** A board's frontmatter after the settings dialog writes it passes the
      cached-frontmatter board test. */
  lemma UpdatedBoardIsBoard(frontmatter: map<string, Value>, u: BoardUpdates)
    ensures IsBoardValue(Get(UpdateBoardConfig(frontmatter, u), BoardField))
  {
  }
}
