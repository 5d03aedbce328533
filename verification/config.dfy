/** Board configuration: how the plugin reads lanes, card types, the tracked-notes
    folder and the default lane out of a board note's frontmatter, layered over the
    plugin settings and the built-in defaults (main.js:23-33, 705-735, 897-964, 1274-1292). */
module BoardConfig {
  import opened Wrappers
  import opened Text
  import opened JsValues
  import opened Folders

  /** Frontmatter keys. */
  const BoardField := "kanbanBoard"
  const LanesField := "kanbanLanes"
  const FolderField := "kanbanFolder"
  const DefaultLaneField := "kanbanDefaultLane"
  const CardTypesField := "kanbanTypes"

  /** A card type: a name shown on the card and a colour for its border. */
  datatype CardType = CardType(name: string, color: string)

  /** The colour given to a card type that does not name one. */
  const DefaultColor := "#0ea5e9"

  /** The plugin's built-in settings. */
  const DefaultNotesFolder := "Kanban"
  const DefaultLanes: seq<string> := ["Backlog", "In Progress", "Done"]
  const DefaultLane := "Backlog"
  const DefaultCardTypes: seq<CardType> :=
    [CardType("Task", "#8b5cf6"), CardType("Bug", "#ef4444"), CardType("Story", "#22c55e")]

  /** The pieces after `trim`, empty ones dropped, order kept:
      `.map((x) => x.trim()).filter(Boolean)`. */
  function TrimmedNonEmpty(parts: seq<string>): (r: seq<string>)
    ensures |r| <= |parts|
    ensures forall i :: 0 <= i < |r| ==> r[i] != "" && NoEdgeSpace(r[i])
  {
    if |parts| == 0 then []
    else
      var t := Trim(parts[0]);
      (if t == "" then [] else [t]) + TrimmedNonEmpty(parts[1..])
  }

  /** A list whose every entry is already trimmed and non-empty is left alone. */
  lemma {:induction false} TrimmedNonEmptyFixed(parts: seq<string>)
    requires forall i :: 0 <= i < |parts| ==> parts[i] != "" && NoEdgeSpace(parts[i])
    ensures TrimmedNonEmpty(parts) == parts
  {
    if |parts| > 0 {
      TrimNoEdgeSpace(parts[0]);
      TrimmedNonEmptyFixed(parts[1..]);
      assert parts == [parts[0]] + parts[1..];
    }
  }

  /** Every entry of the result is the trim of some input piece, and every input piece
      whose trim is not empty contributes its trim. */
  lemma {:induction false} TrimmedNonEmptyMembers(parts: seq<string>, x: string)
    ensures x in TrimmedNonEmpty(parts) <==> x != "" && exists i :: 0 <= i < |parts| && Trim(parts[i]) == x
  {
    if |parts| > 0 {
      TrimmedNonEmptyMembers(parts[1..], x);
      if x != "" && Trim(parts[0]) != x && (exists i :: 0 <= i < |parts| && Trim(parts[i]) == x) {
        var i :| 0 <= i < |parts| && Trim(parts[i]) == x;
        assert Trim(parts[1..][i - 1]) == x;
      }
      if x != "" && (exists i :: 0 <= i < |parts[1..]| && Trim(parts[1..][i]) == x) {
        var i :| 0 <= i < |parts[1..]| && Trim(parts[1..][i]) == x;
        assert Trim(parts[i + 1]) == x;
      }
    }
  }

  /** `String(item)` for each array element. */
  function ElementStrings(items: seq<Value>): (r: seq<string>)
    ensures |r| == |items|
    ensures forall i :: 0 <= i < |items| ==> r[i] == ToJsString(items[i])
  {
    seq(|items|, i requires 0 <= i < |items| => ToJsString(items[i]))
  }

  /** `parseLanes`: an array gives its elements as strings, a string gives its
      comma-separated pieces; both trimmed with empty entries dropped. Anything else
      gives `null`. */
  function ParseLanes(v: Value): (r: Option<seq<string>>)
    ensures r.Some? <==> (v.Arr? || v.Str?)
    ensures r.Some? ==> forall i :: 0 <= i < |r.value| ==> r.value[i] != "" && NoEdgeSpace(r.value[i])
    ensures v.Str? ==> r == Some(TrimmedNonEmpty(Split(v.s, ',')))
    ensures v.Arr? ==> r == Some(TrimmedNonEmpty(ElementStrings(v.items)))
  {
    match v
    case Arr(items) => Some(TrimmedNonEmpty(ElementStrings(items)))
    case Str(s) => Some(TrimmedNonEmpty(Split(s, ',')))
    case _ => None
  }

  /** A lane list written as a comma-separated string reads back as the same list, in
      order, when every lane is trimmed, non-empty and comma-free. */
  lemma ParseLanesOfCommaList(lanes: seq<string>)
    requires |lanes| > 0
    requires forall i :: 0 <= i < |lanes| ==> lanes[i] != "" && NoEdgeSpace(lanes[i]) && ',' !in lanes[i]
    ensures ParseLanes(Str(Join(lanes, ','))) == Some(lanes)
  {
    SplitJoin(lanes, ',');
    TrimmedNonEmptyFixed(lanes);
  }

  /** A lane list written as a YAML array of strings reads back as the same list when
      every lane is trimmed and non-empty; otherwise as the trimmed non-empty lanes. */
  lemma ParseLanesOfArray(lanes: seq<string>)
    ensures ParseLanes(Arr(StrValues(lanes))) == Some(TrimmedNonEmpty(lanes))
    ensures (forall i :: 0 <= i < |lanes| ==> lanes[i] != "" && NoEdgeSpace(lanes[i])) ==>
              ParseLanes(Arr(StrValues(lanes))) == Some(lanes)
  {
    assert ElementStrings(StrValues(lanes)) == lanes;
    if forall i :: 0 <= i < |lanes| ==> lanes[i] != "" && NoEdgeSpace(lanes[i]) {
      TrimmedNonEmptyFixed(lanes);
    }
  }

  /** One entry of a card-type array: a string names a type with the default colour;
      an object needs a non-empty string `name` and may carry a string `color`;
      anything else is dropped. */
  function CardTypeOfItem(item: Value): (r: Option<CardType>)
    ensures item.Str? ==> r == Some(CardType(item.s, DefaultColor))
    ensures item.Obj? && r.Some? ==> r.value.name != "" && Get(item.fields, "name") == Str(r.value.name)
    // An object is kept exactly when its `name` is a non-empty string; its colour is a
    // string `color`, else the default colour.
    ensures item.Obj? ==> (r.Some? <==> Get(item.fields, "name").Str? && Get(item.fields, "name").s != "")
    ensures item.Obj? && r.Some? ==>
              r.value.color == (if Get(item.fields, "color").Str? then Get(item.fields, "color").s else DefaultColor)
    ensures !(item.Str? || item.Obj?) ==> r.None?
  {
    match item
    case Str(s) => Some(CardType(s, DefaultColor))
    case Obj(fields) =>
      var nameValue := Get(fields, "name");
      var colorValue := Get(fields, "color");
      var name := if nameValue.Str? then nameValue.s else "";
      var color := if colorValue.Str? then colorValue.s else DefaultColor;
      if name == "" then None else Some(CardType(name, color))
    case _ => None
  }

  /** `.map(CardTypeOfItem).filter(Boolean)`. */
  function CardTypesOfItems(items: seq<Value>): (r: seq<CardType>)
    ensures |r| <= |items|
  {
    if |items| == 0 then []
    else
      (match CardTypeOfItem(items[0]) case Some(t) => [t] case None => []) + CardTypesOfItems(items[1..])
  }

  /** A card type is in the result exactly when some entry yields it. */
  lemma {:induction false} CardTypesOfItemsMembers(items: seq<Value>, t: CardType)
    ensures t in CardTypesOfItems(items) <==> exists i :: 0 <= i < |items| && CardTypeOfItem(items[i]) == Some(t)
  {
    if |items| > 0 {
      CardTypesOfItemsMembers(items[1..], t);
      if CardTypeOfItem(items[0]) != Some(t) && (exists i :: 0 <= i < |items| && CardTypeOfItem(items[i]) == Some(t)) {
        var i :| 0 <= i < |items| && CardTypeOfItem(items[i]) == Some(t);
        assert CardTypeOfItem(items[1..][i - 1]) == Some(t);
      }
      if exists i :: 0 <= i < |items[1..]| && CardTypeOfItem(items[1..][i]) == Some(t) {
        var i :| 0 <= i < |items[1..]| && CardTypeOfItem(items[1..][i]) == Some(t);
        assert CardTypeOfItem(items[i + 1]) == Some(t);
      }
    }
  }

  /** Names turned into card types with the default colour. */
  function DefaultColored(names: seq<string>): (r: seq<CardType>)
    ensures |r| == |names|
    ensures forall i :: 0 <= i < |names| ==> r[i] == CardType(names[i], DefaultColor)
  {
    seq(|names|, i requires 0 <= i < |names| => CardType(names[i], DefaultColor))
  }

  /** `parseCardTypes`: a falsy value gives `null`; an array gives its usable entries;
      a string gives its trimmed non-empty comma-separated names with the default
      colour; anything else gives `null`. */
  function ParseCardTypes(v: Value): (r: Option<seq<CardType>>)
    ensures r.Some? <==> Truthy(v) && (v.Arr? || v.Str?)
    ensures r.Some? && v.Str? ==>
              forall i :: 0 <= i < |r.value| ==>
                r.value[i].name != "" && NoEdgeSpace(r.value[i].name) && r.value[i].color == DefaultColor
    ensures v.Arr? ==> r == Some(CardTypesOfItems(v.items))
    ensures v.Str? && v.s != "" ==> r == Some(DefaultColored(TrimmedNonEmpty(Split(v.s, ','))))
  {
    if !Truthy(v) then None
    else
      match v
      case Arr(items) => Some(CardTypesOfItems(items))
      case Str(s) =>
        Some(DefaultColored(TrimmedNonEmpty(Split(s, ','))))
      case _ => None
  }

  /** Card-type names written as a comma-separated string read back as the same names,
      in order, each with the default colour, when every name is trimmed, non-empty and
      comma-free. */
  lemma ParseCardTypesOfCommaList(names: seq<string>)
    requires |names| > 0
    requires forall i :: 0 <= i < |names| ==> names[i] != "" && NoEdgeSpace(names[i]) && ',' !in names[i]
    ensures ParseCardTypes(Str(Join(names, ','))) == Some(DefaultColored(names))
  {
    assert Join(names, ',') != "";
    SplitJoin(names, ',');
    TrimmedNonEmptyFixed(names);
  }

  /** A card type as the YAML object `{ name, color }` that `updateBoardConfig` writes. */
  function CardTypeValue(t: CardType): Value
  {
    Obj(map["name" := Str(t.name), "color" := Str(t.color)])
  }

  /** The `{ name, color }` objects of card types, as field maps. */
  function CardTypeEntries(ts: seq<CardType>): (r: seq<map<string, Value>>)
    ensures |r| == |ts|
    ensures forall i :: 0 <= i < |ts| ==> Obj(r[i]) == CardTypeValue(ts[i])
  {
    seq(|ts|, i requires 0 <= i < |ts| => CardTypeValue(ts[i]).fields)
  }

  function CardTypeValues(ts: seq<CardType>): (r: seq<Value>)
    ensures |r| == |ts|
    ensures forall i :: 0 <= i < |ts| ==> r[i] == CardTypeValue(ts[i])
  {
    seq(|ts|, i requires 0 <= i < |ts| => CardTypeValue(ts[i]))
  }

  /** Card types written as YAML objects read back unchanged, names, colours and order,
      as long as every name is non-empty. */
  lemma {:induction false} ParseCardTypesOfValues(ts: seq<CardType>)
    requires forall i :: 0 <= i < |ts| ==> ts[i].name != ""
    ensures ParseCardTypes(Arr(CardTypeValues(ts))) == Some(ts)
  {
    CardTypesOfValues(ts);
  }

  lemma {:induction false} CardTypesOfValues(ts: seq<CardType>)
    requires forall i :: 0 <= i < |ts| ==> ts[i].name != ""
    ensures CardTypesOfItems(CardTypeValues(ts)) == ts
  {
    if |ts| > 0 {
      var vs := CardTypeValues(ts);
      assert vs[1..] == CardTypeValues(ts[1..]);
      CardTypesOfValues(ts[1..]);
      assert CardTypeOfItem(vs[0]) == Some(ts[0]);
      assert ts == [ts[0]] + ts[1..];
    }
  }

  /** The plugin settings as `loadSettings` leaves them. */
  datatype Settings = Settings(
    notesFolder: string,
    lanes: seq<string>,
    defaultLane: string,
    cardTypes: seq<CardType>,
    lastSelectedType: string)

  const DefaultSettings := Settings(DefaultNotesFolder, DefaultLanes, DefaultLane, DefaultCardTypes, "")

  /** The invariant `loadSettings` establishes: at least one lane, the default lane is
      one of them, at least one card type. */
  predicate ValidSettings(s: Settings)
  {
    |s.lanes| > 0 && s.defaultLane in s.lanes && |s.cardTypes| > 0
  }

  /** The data the plugin saved, as read back from disk. A list field is `None` when it
      is missing or is not an array; `defaultLane` and `lastSelectedType` keep their raw
      value because the plugin checks their type itself. */
  datatype SavedData = SavedData(
    notesFolder: Option<string>,
    lanes: Option<seq<string>>,
    defaultLane: Option<Value>,
    cardTypes: Option<seq<CardType>>,
    lastSelectedType: Option<Value>)

  /** `loadSettings`: saved values over the defaults, then an empty or missing lane list
      becomes the default lanes, a default lane outside the lanes becomes the first lane,
      an empty or missing card-type list becomes the default types, and a non-string
      last-selected type becomes "". */
  function LoadSettings(data: SavedData): (r: Settings)
    ensures ValidSettings(r)
    ensures data.lanes.Some? && |data.lanes.value| > 0 ==> r.lanes == data.lanes.value
    ensures !(data.lanes.Some? && |data.lanes.value| > 0) ==> r.lanes == DefaultLanes
    ensures data.defaultLane.Some? && data.defaultLane.value.Str? && data.defaultLane.value.s in r.lanes ==>
              r.defaultLane == data.defaultLane.value.s
    ensures data.defaultLane.None? && DefaultLane in r.lanes ==> r.defaultLane == DefaultLane
    // A saved default lane that is not a string naming one of the lanes gives way to the
    // first lane.
    ensures data.defaultLane.Some? && !(data.defaultLane.value.Str? && data.defaultLane.value.s in r.lanes) ==>
              r.defaultLane == r.lanes[0]
    ensures data.defaultLane.None? && DefaultLane !in r.lanes ==> r.defaultLane == r.lanes[0]
    ensures data.cardTypes.Some? && |data.cardTypes.value| > 0 ==> r.cardTypes == data.cardTypes.value
    ensures !(data.cardTypes.Some? && |data.cardTypes.value| > 0) ==> r.cardTypes == DefaultCardTypes
    ensures data.notesFolder.Some? ==> r.notesFolder == data.notesFolder.value
    ensures data.notesFolder.None? ==> r.notesFolder == DefaultNotesFolder
    ensures data.lastSelectedType.Some? && data.lastSelectedType.value.Str? ==>
              r.lastSelectedType == data.lastSelectedType.value.s
    ensures !(data.lastSelectedType.Some? && data.lastSelectedType.value.Str?) ==> r.lastSelectedType == ""
  {
    var notesFolder := data.notesFolder.GetOr(DefaultNotesFolder);
    var savedLanes := data.lanes.GetOr(DefaultLanes);
    var lanes := if |savedLanes| == 0 then DefaultLanes else savedLanes;
    var defaultLane := data.defaultLane.GetOr(Str(DefaultLane));
    var finalDefault := if defaultLane.Str? && defaultLane.s in lanes then defaultLane.s else lanes[0];
    var savedTypes := data.cardTypes.GetOr(DefaultCardTypes);
    var cardTypes := if |savedTypes| == 0 then DefaultCardTypes else savedTypes;
    var lastSelected := data.lastSelectedType.GetOr(Str(""));
    Settings(notesFolder, lanes, finalDefault, cardTypes,
             if lastSelected.Str? then lastSelected.s else "")
  }

  /** The data `saveSettings` writes for these settings. */
  function SaveSettings(s: Settings): SavedData
  {
    SavedData(Some(s.notesFolder), Some(s.lanes), Some(Str(s.defaultLane)),
              Some(s.cardTypes), Some(Str(s.lastSelectedType)))
  }

  /** Saving valid settings and loading them again gives the same settings back. */
  lemma LoadSavedSettings(s: Settings)
    requires ValidSettings(s)
    ensures LoadSettings(SaveSettings(s)) == s
  {
  }

  /** Loading is idempotent: what it produces survives a save and a second load. */
  lemma LoadSettingsIdempotent(data: SavedData)
    ensures LoadSettings(SaveSettings(LoadSettings(data))) == LoadSettings(data)
  {
    LoadSavedSettings(LoadSettings(data));
  }

  /** `getLaneList`: the configured lanes, or the default lanes when there are none. */
  function GetLaneList(s: Settings): (r: seq<string>)
    ensures |r| > 0
    ensures |s.lanes| > 0 ==> r == s.lanes
    ensures |s.lanes| == 0 ==> r == DefaultLanes
  {
    if |s.lanes| > 0 then s.lanes else DefaultLanes
  }

  /** `getCardTypes`: the configured card types, or the default ones when there are none. */
  function GetCardTypes(s: Settings): (r: seq<CardType>)
    ensures |r| > 0
    ensures |s.cardTypes| > 0 ==> r == s.cardTypes
    ensures |s.cardTypes| == 0 ==> r == DefaultCardTypes
  {
    if |s.cardTypes| > 0 then s.cardTypes else DefaultCardTypes
  }

  /** A board note: its vault path, its name without extension, and the path of the
      folder that holds it ("" when it has no parent). */
  datatype BoardFile = BoardFile(path: string, basename: string, parentPath: string)

  /** The configuration `getBoardConfig` derives for one board. */
  datatype Config = Config(
    title: string,
    board: BoardFile,
    lanes: seq<string>,
    notesFolder: string,
    notesFolderPath: string,
    defaultLane: string,
    cardTypes: seq<CardType>)

  /** `getBoardConfig`: frontmatter values where present and of the right type, else the
      settings, else the defaults. The result always has a lane list with the default
      lane in it. */
  function GetBoardConfig(board: BoardFile, frontmatter: map<string, Value>, settings: Settings): (r: Config)
    ensures |r.lanes| > 0 && r.defaultLane in r.lanes
    ensures r.title == board.basename && r.board == board
    // A lanes entry that parses to a non-empty list wins; an unreadable one falls back
    // to the settings; one that parses to the empty list falls back to the defaults.
    ensures var p := ParseLanes(Get(frontmatter, LanesField));
            && (p.Some? && |p.value| > 0 ==> r.lanes == p.value)
            && (p.Some? && |p.value| == 0 ==> r.lanes == DefaultLanes)
            && (p.None? ==> r.lanes == GetLaneList(settings))
    ensures var f := Get(frontmatter, FolderField);
            r.notesFolder == NormalizeRelativeFolder(if f.Str? then f.s else settings.notesFolder)
    ensures r.notesFolderPath == ResolveFolderForBoard(board.parentPath, r.notesFolder)
    ensures var d := Get(frontmatter, DefaultLaneField);
            var wanted := if d.Str? then d.s else settings.defaultLane;
            r.defaultLane == (if wanted in r.lanes then wanted else r.lanes[0])
    ensures var t := ParseCardTypes(Get(frontmatter, CardTypesField));
            r.cardTypes == (if t.Some? then t.value else GetCardTypes(settings))
  {
    var lanes := ParseLanes(Get(frontmatter, LanesField)).GetOr(GetLaneList(settings));
    var folderValue := Get(frontmatter, FolderField);
    var notesFolder := NormalizeRelativeFolder(if folderValue.Str? then folderValue.s else settings.notesFolder);
    var notesFolderPath := ResolveFolderForBoard(board.parentPath, notesFolder);
    var defaultValue := Get(frontmatter, DefaultLaneField);
    var defaultLane := if defaultValue.Str? then defaultValue.s else settings.defaultLane;
    var cardTypes := ParseCardTypes(Get(frontmatter, CardTypesField)).GetOr(GetCardTypes(settings));
    var finalLanes := if |lanes| > 0 then lanes else DefaultLanes;
    var finalDefault := if defaultLane in finalLanes then defaultLane else finalLanes[0];
    Config(board.basename, board, finalLanes, notesFolder, notesFolderPath, finalDefault, cardTypes)
  }

  /** The edits the board-settings dialog submits: a lane list (`None` when not an
      array), a folder, a default lane and card-type objects (`None` when not an array). */
  datatype BoardUpdates = BoardUpdates(
    lanes: Option<seq<string>>,
    notesFolder: string,
    defaultLane: string,
    cardTypes: Option<seq<map<string, Value>>>)

  /** One submitted card type: `String(type.name || "").trim()` and a string colour or
      the default colour. */
  function NormalizeCardTypeEntry(entry: map<string, Value>): (r: CardType)
    ensures NoEdgeSpace(r.name)
    ensures var n := Get(entry, "name"); r.name == Trim(if Truthy(n) then ToJsString(n) else "")
    ensures Get(entry, "name").Str? ==> r.name == Trim(Get(entry, "name").s)
    ensures Get(entry, "color").Str? ==> r.color == Get(entry, "color").s
    ensures !Get(entry, "color").Str? ==> r.color == DefaultColor
  {
    var nameValue := Get(entry, "name");
    var colorValue := Get(entry, "color");
    CardType(Trim(if Truthy(nameValue) then ToJsString(nameValue) else ""),
             if colorValue.Str? then colorValue.s else DefaultColor)
  }

  /** The submitted card types, normalised, with nameless ones dropped. */
  function NormalizeCardTypeEntries(entries: seq<map<string, Value>>): (r: seq<CardType>)
    ensures |r| <= |entries|
    ensures forall i :: 0 <= i < |r| ==> r[i].name != "" && NoEdgeSpace(r[i].name)
  {
    if |entries| == 0 then []
    else
      var t := NormalizeCardTypeEntry(entries[0]);
      (if t.name != "" then [t] else []) + NormalizeCardTypeEntries(entries[1..])
  }

  /** A card type is written exactly when some submitted entry normalises to it with a
      non-empty name. */
  lemma {:induction false} NormalizeCardTypeEntriesMembers(entries: seq<map<string, Value>>, t: CardType)
    ensures t in NormalizeCardTypeEntries(entries) <==>
            t.name != "" && exists i :: 0 <= i < |entries| && NormalizeCardTypeEntry(entries[i]) == t
  {
    if |entries| > 0 {
      NormalizeCardTypeEntriesMembers(entries[1..], t);
      if t.name != "" && NormalizeCardTypeEntry(entries[0]) != t
         && (exists i :: 0 <= i < |entries| && NormalizeCardTypeEntry(entries[i]) == t) {
        var i :| 0 <= i < |entries| && NormalizeCardTypeEntry(entries[i]) == t;
        assert NormalizeCardTypeEntry(entries[1..][i - 1]) == t;
      }
      if exists i :: 0 <= i < |entries[1..]| && NormalizeCardTypeEntry(entries[1..][i]) == t {
        var i :| 0 <= i < |entries[1..]| && NormalizeCardTypeEntry(entries[1..][i]) == t;
        assert NormalizeCardTypeEntry(entries[i + 1]) == t;
      }
    }
  }

  /** The `{ name, color }` entries of card types with trimmed non-empty names are
      written back as those same card types, in order. */
  lemma {:induction false} NormalizeCardTypeEntriesOfTypes(ts: seq<CardType>)
    requires forall i :: 0 <= i < |ts| ==> ts[i].name != "" && NoEdgeSpace(ts[i].name)
    ensures NormalizeCardTypeEntries(CardTypeEntries(ts)) == ts
  {
    if |ts| > 0 {
      var es := CardTypeEntries(ts);
      assert es[1..] == CardTypeEntries(ts[1..]);
      NormalizeCardTypeEntriesOfTypes(ts[1..]);
      TrimNoEdgeSpace(ts[0].name);
      assert NormalizeCardTypeEntry(es[0]) == ts[0];
      assert ts == [ts[0]] + ts[1..];
    }
  }

  /** The lane list `updateBoardConfig` writes. */
  function UpdatedLanes(u: BoardUpdates): seq<string>
  {
    u.lanes.GetOr([])
  }

  /** The default lane `updateBoardConfig` writes: the submitted one, else the first
      lane, else "". */
  function UpdatedDefaultLane(u: BoardUpdates): (r: string)
    ensures u.defaultLane != "" ==> r == u.defaultLane
    ensures u.defaultLane == "" && |UpdatedLanes(u)| > 0 ==> r == UpdatedLanes(u)[0]
    ensures u.defaultLane == "" && |UpdatedLanes(u)| == 0 ==> r == ""
  {
    var lanes := UpdatedLanes(u);
    if u.defaultLane != "" then u.defaultLane
    else if |lanes| > 0 then lanes[0]
    else ""
  }

  /** The card types `updateBoardConfig` writes. */
  function UpdatedCardTypes(u: BoardUpdates): (r: seq<CardType>)
    ensures forall i :: 0 <= i < |r| ==> r[i].name != "" && NoEdgeSpace(r[i].name)
  {
    match u.cardTypes
    case Some(entries) => NormalizeCardTypeEntries(entries)
    case None => []
  }

  /** `updateBoardConfig`: the board's frontmatter after the five keys are written. */
  function UpdateBoardConfig(frontmatter: map<string, Value>, u: BoardUpdates): (r: map<string, Value>)
    ensures r.Keys == frontmatter.Keys + {BoardField, LanesField, FolderField, DefaultLaneField, CardTypesField}
    ensures r[BoardField] == Bool(true)
    ensures r[FolderField] == Str(NormalizeRelativeFolder(u.notesFolder))
    ensures r[LanesField] == Arr(StrValues(UpdatedLanes(u)))
    ensures r[DefaultLaneField] == Str(UpdatedDefaultLane(u))
    ensures r[CardTypesField] == Arr(CardTypeValues(UpdatedCardTypes(u)))
    ensures forall k :: k in frontmatter && k !in {BoardField, LanesField, FolderField, DefaultLaneField, CardTypesField}
              ==> r[k] == frontmatter[k]
  {
    frontmatter[BoardField := Bool(true)]
               [LanesField := Arr(StrValues(UpdatedLanes(u)))]
               [FolderField := Str(NormalizeRelativeFolder(u.notesFolder))]
               [DefaultLaneField := Str(UpdatedDefaultLane(u))]
               [CardTypesField := Arr(CardTypeValues(UpdatedCardTypes(u)))]
  }

  /** Writing board updates and reading the configuration back: the lanes are the
      submitted ones trimmed (the default lanes, not the settings' lanes, when none
      survive), the folder is the normalised submitted folder, the card types are the
      normalised submitted ones (possibly none), and the default lane is the written
      one when it is a lane. */
  lemma UpdateThenRead(board: BoardFile, frontmatter: map<string, Value>, settings: Settings, u: BoardUpdates)
    ensures var c := GetBoardConfig(board, UpdateBoardConfig(frontmatter, u), settings);
            var lanes := TrimmedNonEmpty(UpdatedLanes(u));
            && c.lanes == (if |lanes| > 0 then lanes else DefaultLanes)
            && c.notesFolder == NormalizeRelativeFolder(u.notesFolder)
            && c.cardTypes == UpdatedCardTypes(u)
            && c.defaultLane == (if UpdatedDefaultLane(u) in c.lanes then UpdatedDefaultLane(u) else c.lanes[0])
  {
    var fm := UpdateBoardConfig(frontmatter, u);
    ParseLanesOfArray(UpdatedLanes(u));
    assert Get(fm, LanesField) == Arr(StrValues(UpdatedLanes(u)));
    NormalizeRelativeFolderIdempotent(u.notesFolder);
    ParseCardTypesOfValues(UpdatedCardTypes(u));
  }

  /** The default lane chosen in the dialog survives a write and a read whenever it is
      one of the board's lanes; left empty, the board opens on its first lane. */
  lemma UpdateThenReadDefaultLane(board: BoardFile, frontmatter: map<string, Value>, settings: Settings,
                                  u: BoardUpdates)
    ensures var c := GetBoardConfig(board, UpdateBoardConfig(frontmatter, u), settings);
            && (u.defaultLane in c.lanes ==> c.defaultLane == u.defaultLane)
            && (u.defaultLane == "" ==> c.defaultLane == c.lanes[0])
  {
    UpdateThenRead(board, frontmatter, settings, u);
    WrittenDefaultLane(u);
  }

  /** The lanes a board reads back after an update, and the default lane among them. */
  lemma WrittenDefaultLane(u: BoardUpdates)
    ensures var trimmed := TrimmedNonEmpty(UpdatedLanes(u));
            var lanes := if |trimmed| > 0 then trimmed else DefaultLanes;
            var w := UpdatedDefaultLane(u);
            var d := if w in lanes then w else lanes[0];
            && (u.defaultLane in lanes ==> d == u.defaultLane)
            && (u.defaultLane == "" ==> d == lanes[0])
  {
    var submitted := UpdatedLanes(u);
    var w := UpdatedDefaultLane(u);
    ReadLanesClean(submitted, w);
    if u.defaultLane == "" && w in ReadLanes(submitted) {
      FirstLaneKept(submitted);
    }
  }

  /** The lanes read back from a submitted list. */
  function ReadLanes(submitted: seq<string>): seq<string>
  {
    var trimmed := TrimmedNonEmpty(submitted);
    if |trimmed| > 0 then trimmed else DefaultLanes
  }

  /** Every lane read back is non-empty and has no surrounding white space. */
  lemma ReadLanesClean(submitted: seq<string>, x: string)
    ensures x in ReadLanes(submitted) ==> x != "" && NoEdgeSpace(x)
  {
  }

  /** A first lane that is already trimmed and non-empty stays first. */
  lemma FirstLaneKept(submitted: seq<string>)
    requires |submitted| > 0 && submitted[0] != "" && NoEdgeSpace(submitted[0])
    ensures ReadLanes(submitted)[0] == submitted[0]
  {
    TrimNoEdgeSpace(submitted[0]);
    assert TrimmedNonEmpty(submitted) == [submitted[0]] + TrimmedNonEmpty(submitted[1..]);
  }
}
