# Kanbanify board logic in Dafny

This project models the core of the obsidian-kanbanify plugin, an Obsidian plugin that shows a
folder of markdown notes as a kanban board. A *board note* is a markdown note whose frontmatter
says `kanbanBoard: true`. It also names:

- the lanes (`kanbanLanes`);
- the tracked-notes folder (`kanbanFolder`, relative to the board's own folder);
- a default lane (`kanbanDefaultLane`);
- the card types (`kanbanTypes`).

Every note in the tracked folder is a *card*. It sits in the lane named by its `kanbanStatus`, or
in the default lane when that status is not one of the board's lanes. Its `kanbanType` picks a
label and a colour.

The model covers these parts of the plugin:

- **Values and text** (`values.dfy`, `text.dfy`). Parsed YAML/JSON values and the JavaScript
  coercions the plugin applies to them. The string built-ins it relies on: `trim` with the exact
  ECMAScript white-space set, `split` and `join` on one character, and ASCII lower-casing.
- **Board configuration** (`config.dfy`):
  - `parseLanes` and `parseCardTypes`;
  - `getBoardConfig`, which falls back from frontmatter to settings to defaults;
  - `loadSettings`, `getLaneList` and `getCardTypes`;
  - `updateBoardConfig`, which writes the board-settings dialog back into the frontmatter.
- **Folders** (`folders.dfy`). `normalizeFolder`, `normalizeRelativeFolder`,
  `resolveFolderForBoard`, `isFileInFolder` and `normalizeVaultPath`.
- **Lanes** (`lanes.dfy`). `collectNotesByLane`, which puts every note of the tracked folder into
  exactly one lane. Each lane is sorted by note name.
- **Board detection** (`frontmatter.dfy`). `isBoardFile` on the cached frontmatter value, and the
  text-based fallback `parseBoardFrontmatter`. The pattern `/^kanbanBoard\s*:\s*(.+)\s*$/i` is
  described independently (`PatternMatch`) and proved equal, in both directions, to the
  value-extracting function.
- **Paths** (`paths.dfy`):
  - `getUniqueFilepath`, with its `/^(.*?)(\.\w+)$/` extension split;
  - the title sanitiser `replace(/[\\/:*?"<>|]/g, "").trim()`;
  - the head of `getFileFromDragText`, which removes the wiki-link brackets, the `|alias` and the
    `#heading`.
- **Creating notes** (`boardnotes.dfy`). `createBoard`, `createBoardInFolder` and
  `createNoteInLane`. Two results tie the modules together:
  - every board text these commands write is recognised by `parseBoardFrontmatter`, whatever the
    interpolated strings hold;
  - a note created in a lane shows up in that lane of the board, as long as the board's
    tracked-notes folder resolves to a non-empty path. When it resolves to nothing, for example
    after the folder field of the board-settings dialog is cleared, the note is still created (in
    the fallback folder) but the board tracks no note and shows every lane empty.

Host inputs become parameters:

- the prompt answers (an empty answer stands for a dismissed prompt);
- the set of paths already in the vault;
- the board note's parent-folder path;
- the list of markdown notes, each with its cached `kanbanStatus` and `kanbanType`;
- the string comparison used for sorting.

`localeCompare` is replaced by a comparator parameter `le`, which the contracts require to be a
total preorder.

## Model

| member | source | states |
|---|---|---|
| BoardConfig.ParseLanes | main.js:928-936 | an array or a string gives a list, anything else gives none; the list holds the trimmed, non-empty element strings (array) or comma pieces (string), so every lane is non-empty and has no surrounding white space |
| BoardConfig.ParseLanesOfCommaList | main.js:933-934 | a list of trimmed, comma-free lanes written as one comma-separated string reads back as the same list, in order |
| BoardConfig.ParseLanesOfArray | main.js:929-931 | an array of strings reads back as its trimmed, non-empty members, and as itself when they already are |
| BoardConfig.TrimmedNonEmptyMembers | main.js:930-931 | a lane survives the trim-and-filter step exactly when it is the non-empty trimmed form of some input piece |
| BoardConfig.CardTypeOfItem | main.js:941-954 | a string item becomes a type of that name with the default colour; an object item is kept exactly when its `name` is a non-empty string, with that name and its string `color` or else the default colour; any other value is dropped |
| BoardConfig.CardTypesOfItemsMembers | main.js:940-955 | a type is in the parsed array exactly when some item of the array yields it |
| BoardConfig.ParseCardTypes | main.js:938-964 | a list comes back exactly when the value is truthy and an array or a string; an array gives the types its items yield, in order; a string gives its trimmed non-empty comma pieces, in order, each with the default colour |
| BoardConfig.ParseCardTypesOfCommaList | main.js:957-962 | trimmed, non-empty, comma-free names written as one comma-separated string read back as the same names, in order, each with the default colour |
| BoardConfig.ParseCardTypesOfValues | main.js:940-956 | types with non-empty names written as name/color objects read back unchanged |
| BoardConfig.LoadSettings | main.js:705-719 | the loaded settings always have a lane, a default lane among them and a card type; saved non-empty lanes and types win, else the default lanes and types; a saved string default lane naming a lane wins, else `Backlog` when nothing was saved and it is a lane, else the first lane; the saved folder wins, else `Kanban`; a saved string last-selected type wins, else "" |
| BoardConfig.LoadSavedSettings | main.js:705-723 | saving valid settings and loading them again gives the same settings |
| BoardConfig.LoadSettingsIdempotent | main.js:705-723 | loading, saving and loading again changes nothing |
| BoardConfig.GetLaneList | main.js:725-728 | the configured lanes, or the default lanes when there are none; never empty |
| BoardConfig.GetCardTypes | main.js:730-735 | the configured types, or the default types when there are none; never empty |
| BoardConfig.GetBoardConfig | main.js:897-926 | lanes come from a lanes entry that parses non-empty, else the settings when it does not parse, else the defaults when it parses empty; the default lane is always one of the lanes; the folder is normalised and resolved against the board's folder |
| BoardConfig.NormalizeCardTypeEntry | main.js:1279-1282 | a dialog entry becomes a type named `String(name || "")` trimmed (a string name trimmed), with its string colour or the default colour |
| BoardConfig.NormalizeCardTypeEntriesMembers | main.js:1278-1283 | a type is written exactly when some submitted entry normalises to it with a non-empty name |
| BoardConfig.NormalizeCardTypeEntriesOfTypes | main.js:1278-1283 | the name/colour entries of types with trimmed non-empty names are written back as those same types, in order |
| BoardConfig.UpdateBoardConfig | main.js:1274-1292 | exactly the five board keys are set: the board flag true, the submitted lanes, the normalised folder, the chosen default lane (else the first lane, else ""), the normalised types; every other key is unchanged |
| BoardConfig.UpdateThenRead | main.js:1274-1292 | reading a board back after an update gives the submitted lanes (or the defaults when none survive), the normalised folder, the submitted types and a default lane among the lanes |
| BoardConfig.UpdateThenReadDefaultLane | main.js:1274-1292 | after an update, the board opens on the chosen default lane whenever it is one of its lanes, and on its first lane when none was chosen |
| Folders.NormalizeFolder | main.js:966-969 | the folder without trailing separators: a prefix that does not end in `/` or `\` |
| Folders.NormalizeFolderRemovesSeps | main.js:968 | only separators are removed |
| Folders.NormalizeFolderIdempotent | main.js:966-969 | normalising twice equals normalising once |
| Folders.NormalizeRelativeFolder | main.js:971-975 | neither end of the result is a separator |
| Folders.NormalizeRelativeFolderIsInfix | main.js:971-975 | the result is the folder with runs of separators removed at both ends and nothing else |
| Folders.NormalizeRelativeFolderIdempotent | main.js:971-975 | normalising twice equals normalising once |
| Folders.NormalizeRelativeFolderEmptyIff | main.js:971-975 | the result is empty exactly when the folder consists of separators only |
| Folders.ResolveFolderForBoard | main.js:977-982 | empty exactly when the folder normalises to empty; otherwise the normalised folder, behind `parent/` when the board has a parent folder |
| Folders.ResolvedFolderIsNormal | main.js:977-988 | a resolved folder is already normal, so the folder test compares against it unchanged |
| Folders.FileInResolvedFolder | main.js:977-988 | every path `resolved/name` is inside the resolved folder |
| Folders.TrailingSeparatorIgnored | main.js:984-988 | a `/` or `\` added at the end of the folder setting does not change which files are in it |
| Folders.SubfolderInFolder | main.js:984-988 | a file inside `folder/sub` is inside `folder` as well |
| Folders.NormalizeVaultPath | main.js:1155-1157 | the same as removing the leading run of `/` and `\` and then turning every `\` into `/`; no backslash and no leading `/` remain |
| Folders.NormalizeVaultPathIdempotent | main.js:1155-1157 | normalising twice equals normalising once |
| Lanes.TypeMap | main.js:1006-1008 | every key is the lower-cased name of its type |
| Lanes.TypeMapKeys | main.js:1006-1008 | a key is present exactly when some type's lower-cased name is that key |
| Lanes.TypeMapLastWins | main.js:1006-1008 | of types with the same lower-cased name, the last one is kept |
| Lanes.CardFor | main.js:1015-1019 | no type gives an empty label and colour; an unknown type gives its own name and no colour; a known type gives the mapped name and colour |
| Lanes.TargetLane | main.js:1020 | a status naming a lane goes to that lane; a missing status or one naming no lane goes to the default lane (the first lane when the default is empty) |
| Lanes.SortCards | main.js:1031-1033 | the result is a permutation of the lane's cards, each card's name ordered before the next one's |
| Lanes.NeighboursSortedIsSorted | main.js:1031-1033 | with a transitive comparison, neighbour order gives order between every pair |
| Lanes.GroupIsBuckets | main.js:1003-1029 | after the loop each lane's list is exactly the included notes targeting it, in vault order, and a lane exists exactly when it is configured or received a note |
| Lanes.CollectNotesByLane | main.js:1002-1036 | every configured lane is present, every other key is the default lane, each list is sorted by name and is a permutation of the notes that target it |
| Lanes.ExactlyOneLane | main.js:1012-1029 | a card is in a lane exactly when it belongs to an included note whose target is that lane |
| Lanes.ExcludedNotesAbsent | main.js:1013 | only notes inside the tracked folder appear; a board whose folder normalises to empty shows its lanes empty and nothing else |
| Frontmatter.IsBoardStringIff | main.js:849-855 | a string `kanbanBoard` value counts exactly when it spells `true` with each letter in either case |
| Frontmatter.FindClose | main.js:866-872 | the first line from line 1 on that trims to `---` or `...`, or none when there is none |
| Frontmatter.KeyLineValue | main.js:876 | a value only for lines whose first eleven characters are `kanbanBoard` in any letter case; the value has no surrounding white space |
| Frontmatter.MatchGivesValue | main.js:876-877 | however the pattern matches a line, the extracted value is the trimmed capture |
| Frontmatter.ValueGivesMatch | main.js:876-877 | whenever a value is extracted, the pattern matches the line with that trimmed capture |
| Frontmatter.Decision | main.js:877-880 | `true`/`yes` decide "board", `false`/`no` decide "not a board", any letter case; every other line is skipped |
| Frontmatter.DecideFromFirst | main.js:874-882 | the loop answers "board" exactly when some line of the block says true and no earlier line of the block decides either way |
| Frontmatter.ParseBoardFrontmatter | main.js:863-883 | "board" exactly when the content opens with `---`, has a closing line, and the first deciding line inside the block says true |
| Frontmatter.JoinedBoardIsBoard | main.js:863-883 | any text laid out as `---`, `kanbanBoard: true`, lines, `---`, lines is recognised as a board, whatever the other lines contain |
| Paths.SplitExtension | main.js:1241-1243 | base and extension concatenate to the path; a non-empty extension is a dot followed by word characters in a path without line terminators |
| Paths.SplitExtensionMatches | main.js:1241 | the extension is non-empty exactly when the pattern can match, and it is the only suffix that could be the extension |
| Paths.CandidateInjective | main.js:1245-1248 | different counters give different alternative paths |
| Paths.FirstFree | main.js:1244-1249 | the counter loop stops at a free alternative with every smaller one taken |
| Paths.UniqueFilepath | main.js:1239-1251 | the result is free; a free path is kept; otherwise the result is the alternative `base n.ext` whose predecessors are all taken |
| Paths.UniqueFilepathLeast | main.js:1244-1250 | no free alternative has a smaller counter than the chosen one |
| Paths.UniqueFilepathKeepsPrefix | main.js:1239-1251 | any part of the path before its extension is kept by every alternative |
| Paths.RemoveForbiddenChars | main.js:1204 | the result holds no forbidden character, and a character occurs in it exactly when it is an allowed character of the input |
| Paths.RemoveForbiddenAppend | main.js:1204 | removal works piece by piece: the result for `a + b` is the result for `a` followed by that for `b`, so order and repetitions are kept |
| Paths.RemoveForbiddenKeepsClean | main.js:1204 | a string without forbidden characters is left unchanged |
| Paths.RemoveForbiddenDropsAll | main.js:1204 | a string of forbidden characters only is removed completely |
| Paths.SanitizeTitle | main.js:1204 | the sanitised title holds no forbidden character and has no surrounding white space |
| Paths.SanitizeTitleIsInfix | main.js:1204 | the sanitised title is the title with forbidden characters removed, less white space at its two ends and nothing else |
| Paths.SanitizeTitleKeepsClean | main.js:1204 | a title without forbidden characters or surrounding white space is kept as it is |
| Paths.SanitizeTitleIdempotent | main.js:1204 | sanitising twice equals sanitising once |
| Paths.SanitizeTitleEmptyIff | main.js:1204-1208 | a title is rejected exactly when each of its characters is forbidden or white space |
| Paths.WikiLinkInner | main.js:1098-1099 | the inside of `[[...]]` exactly when the whole text is such a link with a non-empty inside free of line terminators |
| Paths.BeforeFirst | main.js:1100-1105 | the front of the link up to the first separator, or the whole link when it has none |
| Paths.DragTextTarget | main.js:1095-1105 | nothing for empty text; otherwise the link (the inside of a whole-text wiki link, else the text) cut at its first `|` or `#`, or the whole link when it has neither |
| Paths.WikiLinkTarget | main.js:1098-1105 | `[[name]]`, `[[name|alias]]`, `[[name#heading]]` and `[[name#heading|alias]]` all point at `name` |
| BoardNotes.ChosenNotesFolder | main.js:1304-1309 | the answer, else the configured folder, else `Kanban`; never empty |
| BoardNotes.NewBoardDefaultLane | main.js:1311-1314 | the configured default lane when it is one of the lanes written, else the first of them |
| BoardNotes.BoardTextIsBoard | main.js:1316-1333 | the text `createBoard` writes is recognised as a board |
| BoardNotes.FolderBoardTextIsBoard | main.js:1359-1378 | the text `createBoardInFolder` writes is recognised as a board |
| BoardNotes.CreateBoardAt | main.js:1294-1333 | an empty title cancels; a title that sanitises to nothing is rejected; otherwise the note goes to the path `getUniqueFilepath` picks for `prefix + title.md` (that path itself when free) and is recognised as a board |
| BoardNotes.CreateBoard | main.js:1294-1335 | as above at the vault root: the path `getUniqueFilepath` picks for `title.md`, which is `title.md` itself when free |
| BoardNotes.CreateBoardInFolder | main.js:1337-1380 | as `CreateBoardAt` with the prefix `folder/` (none when the folder is empty): the path is the one `getUniqueFilepath` picks for `folder/title.md`, which is `folder/title.md` itself when free |
| BoardNotes.NewBoardShowsSettings | main.js:1311-1329 | reading back the frontmatter a new board writes gives the settings' lanes, default lane and card types |
| BoardNotes.NewNoteFolder | main.js:1190-1195 | the board's resolved folder when there is one, else the configured folder (or `Kanban`) resolved against the board's folder, else `Kanban` |
| BoardNotes.CreateNoteInLane | main.js:1185-1219 | an empty title cancels; a title that sanitises to nothing is rejected; otherwise the path `getUniqueFilepath` picks for `folder/title.md` in the notes folder (that path itself when free), content `# title`, status the lane, and a type exactly when one was chosen |
| BoardNotes.NewNoteLandsInLane | main.js:1185-1219 | when the board's folder resolves to a non-empty path, a note created in a lane of the board appears in that lane |
| BoardNotes.NewNoteHiddenWithoutFolder | main.js:1185-1219 | when the board's folder resolves to nothing, a note with a valid title is still created, yet every lane of the board stays empty |
| BoardNotes.UpdatedBoardIsBoard | main.js:1286 | after the settings dialog writes a board's frontmatter, the cached-frontmatter board test accepts it |

## Left out

- Views, modals, the settings tab, drag and drop, and opening or revealing files are not modelled. They are user-interface code.
- Host API calls are not modelled: vault reads and writes, `processFrontMatter`, `ensureFolder`, timers and notices. Their inputs and outputs are parameters.
- `isBoardFileReliable` is not modelled. It is only the disjunction of `isBoardFile` and `parseBoardFrontmatter`.
- `handleDrop`, `resolveDroppedFile`, `moveFileToFolder` and `getFileFromPath` are not modelled. They are host lookups.
- The `obsidian://open` and `app://obsidian.md/` branches of `getFileFromDragText` are not modelled. They need `decodeURIComponent` and a vault lookup. Only the link-stripping head is modelled.
- The YAML parser is not modelled. `NewBoardShowsSettings` starts from the frontmatter the written lines denote, which holds only when no written string contains a quote, a backslash or a line break.
- `getBoardConfig` with a missing board file (`null`) is not modelled. Neither is `createNoteInLane` without a board configuration.
- Writing `lastSelectedType` back to the settings in `createNoteInLane` is not modelled. It is persistence plumbing.
- Numbers are integers only. Floating-point frontmatter values are not modelled, and neither is `String(n)`'s exponent notation for integers of magnitude 10^21 or more.
- Saved settings are typed. A saved lane or type list holding non-string or non-object elements is not modelled.
- `toLowerCase` is modelled for ASCII letters only. This is exact for the `kanbanBoard` key and for the words `true`/`yes`/`false`/`no`. Other strings, such as card-type names, may differ from Unicode case mapping.
- BoardNotes.NewNoteLandsInLane: holds only for boards whose tracked-notes folder resolves to a non-empty path; `NewNoteHiddenWithoutFolder` states what happens otherwise.
- Lanes.SortCards: `localeCompare` is replaced by a caller-supplied total preorder. Sort stability is not stated.

## Findings

No discrepancy between the source and its evident intent was established.
