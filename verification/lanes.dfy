/** Lane assignment: `collectNotesByLane` (main.js:990-1036). The vault's markdown
    files and their `kanbanStatus` / `kanbanType` frontmatter arrive as a list of note
    records; the locale-aware `localeCompare` is a total preorder `le` on basenames. */
module Lanes {
  import opened Wrappers
  import opened Text
  import opened Folders
  import opened BoardConfig

  /** A markdown note as the grouping sees it: its path, its name without extension,
      and its status and type when they are strings (`getStatus` / `getType`). */
  datatype Note = Note(path: string, basename: string, status: Option<string>, noteType: Option<string>)

  /** A card on the board: the note with the label and colour of its type. */
  datatype Card = Card(note: Note, typeLabel: string, typeColor: string)

  /** A comparison on basenames that is total and transitive (ties allowed), the
      contract `localeCompare(a, b) <= 0` keeps. */
  ghost predicate TotalPreorder(le: (string, string) -> bool)
  {
    Total(le) && Transitive(le)
  }

  ghost predicate Total(le: (string, string) -> bool)
  {
    forall a, b :: le(a, b) || le(b, a)
  }

  ghost predicate Transitive(le: (string, string) -> bool)
  {
    forall a, b, c :: le(a, b) && le(b, c) ==> le(a, c)
  }

  /** Cards in order of their basenames. */
  ghost predicate SortedByBasename(le: (string, string) -> bool, cards: seq<Card>)
  {
    forall i, j :: 0 <= i < j < |cards| ==> le(cards[i].note.basename, cards[j].note.basename)
  }

  /** Each card sorts no later than the next one. */
  ghost predicate NeighboursSorted(le: (string, string) -> bool, cards: seq<Card>)
  {
    forall i :: 0 <= i < |cards| - 1 ==> le(cards[i].note.basename, cards[i + 1].note.basename)
  }

  /** For a transitive comparison, neighbour order is the full order. */
  lemma {:induction false} NeighboursSortedIsSorted(le: (string, string) -> bool, cards: seq<Card>)
    requires Transitive(le)
    requires NeighboursSorted(le, cards)
    ensures SortedByBasename(le, cards)
  {
    if |cards| > 1 {
      NeighboursSortedIsSorted(le, cards[1..]);
      forall j | 1 <= j < |cards|
        ensures le(cards[0].note.basename, cards[j].note.basename)
      {
        if j > 1 {
          assert le(cards[1].note.basename, cards[j].note.basename) by {
            assert cards[1..][0] == cards[1] && cards[1..][j - 1] == cards[j];
          }
        }
      }
      forall i, j | 0 <= i < j < |cards|
        ensures le(cards[i].note.basename, cards[j].note.basename)
      {
        if i > 0 {
          assert cards[1..][i - 1] == cards[i] && cards[1..][j - 1] == cards[j];
        }
      }
    }
  }

  /** `new Map(cardTypes.map((t) => [t.name.toLowerCase(), t]))`: each lower-cased name
      maps to a card type; on a clash the later type overwrites the earlier one. */
  function TypeMap(types: seq<CardType>): (m: map<string, CardType>)
    ensures forall k :: k in m ==> Lower(m[k].name) == k
  {
    if |types| == 0 then map[]
    else
      var last := types[|types| - 1];
      TypeMap(types[..|types| - 1])[Lower(last.name) := last]
  }

  /** The keys of the type map are exactly the lower-cased names. */
  lemma {:induction false} TypeMapKeys(types: seq<CardType>, k: string)
    ensures k in TypeMap(types) <==> exists i :: 0 <= i < |types| && Lower(types[i].name) == k
  {
    if |types| > 0 {
      var init := types[..|types| - 1];
      TypeMapKeys(init, k);
      if exists i :: 0 <= i < |init| && Lower(init[i].name) == k {
        var i :| 0 <= i < |init| && Lower(init[i].name) == k;
        assert types[i] == init[i];
      }
      if exists i :: 0 <= i < |types| && Lower(types[i].name) == k {
        var i :| 0 <= i < |types| && Lower(types[i].name) == k;
        if i < |init| { assert init[i] == types[i]; }
      }
    }
  }

  /** Later card types win: a type whose lower-cased name no later type shares is the
      one the map holds for that name. */
  lemma {:induction false} TypeMapLastWins(types: seq<CardType>, i: nat)
    requires i < |types|
    requires forall j :: i < j < |types| ==> Lower(types[j].name) != Lower(types[i].name)
    ensures Lower(types[i].name) in TypeMap(types)
    ensures TypeMap(types)[Lower(types[i].name)] == types[i]
  {
    if i < |types| - 1 {
      var init := types[..|types| - 1];
      assert init[i] == types[i];
      TypeMapLastWins(init, i);
    }
  }

  /** The card built for a note: the type found case-insensitively gives the label (its
      name) and the colour; an unknown type keeps its own text as the label and no
      colour; an absent or empty type gives neither. */
  function CardFor(note: Note, typeMap: map<string, CardType>): (c: Card)
    ensures c.note == note
    ensures note.noteType.None? || note.noteType.value == "" ==> c.typeLabel == "" && c.typeColor == ""
    ensures note.noteType.Some? && note.noteType.value != "" && Lower(note.noteType.value) !in typeMap ==>
              c.typeLabel == note.noteType.value && c.typeColor == ""
    ensures note.noteType.Some? && note.noteType.value != "" && Lower(note.noteType.value) in typeMap ==>
              var t := typeMap[Lower(note.noteType.value)];
              c.typeLabel == (if t.name != "" then t.name else note.noteType.value) && c.typeColor == t.color
  {
    var noteType := note.noteType.GetOr("");
    var mapped := if noteType != "" && Lower(noteType) in typeMap then Some(typeMap[Lower(noteType)]) else None;
    var typeLabel := if mapped.Some? && mapped.value.name != "" then mapped.value.name else noteType;
    var typeColor := if mapped.Some? && mapped.value.color != "" then mapped.value.color else "";
    Card(note, typeLabel, typeColor)
  }

  /** What the grouping needs of a configuration: a lane to fall back on
      (`defaultLane || lanes[0]` must exist). */
  predicate HasFallbackLane(c: Config)
  {
    c.defaultLane != "" || |c.lanes| > 0
  }

  /** `boardConfig.defaultLane || lanes[0]`. */
  function FallbackLane(c: Config): string
    requires HasFallbackLane(c)
  {
    if c.defaultLane != "" then c.defaultLane else c.lanes[0]
  }

  /** The note lies in the board's tracked-notes folder. */
  predicate Included(c: Config, note: Note)
  {
    IsFileInFolder(note.path, c.notesFolderPath)
  }

  /** The lane a note goes to: its status when that is a configured lane, otherwise
      the fallback lane. */
  function TargetLane(c: Config, note: Note): (lane: string)
    requires HasFallbackLane(c)
    ensures lane in c.lanes || lane == FallbackLane(c)
    ensures note.status.Some? && note.status.value in c.lanes ==> lane == note.status.value
    ensures !(note.status.Some? && note.status.value in c.lanes) ==> lane == FallbackLane(c)
  {
    if note.status.Some? && note.status.value in c.lanes then note.status.value else FallbackLane(c)
  }

  /** One `forEach` step: an included note's card is appended to its lane, creating the
      lane's list when it does not exist yet. */
  function Place(m: map<string, seq<Card>>, c: Config, typeMap: map<string, CardType>, note: Note): map<string, seq<Card>>
    requires HasFallbackLane(c)
  {
    if !Included(c, note) then m
    else
      var lane := TargetLane(c, note);
      m[lane := (if lane in m then m[lane] else []) + [CardFor(note, typeMap)]]
  }

  /** The map before any note is placed: every configured lane with an empty list. */
  function EmptyLanes(lanes: seq<string>): (m: map<string, seq<Card>>)
    ensures forall k :: k in m <==> k in lanes
    ensures forall k :: k in m ==> m[k] == []
  {
    map l | l in lanes :: []
  }

  /** The map after placing the notes in order, as the source's `forEach` does. */
  function Group(c: Config, typeMap: map<string, CardType>, notes: seq<Note>): map<string, seq<Card>>
    requires HasFallbackLane(c)
  {
    if |notes| == 0 then EmptyLanes(c.lanes)
    else Place(Group(c, typeMap, notes[..|notes| - 1]), c, typeMap, notes[|notes| - 1])
  }

  /** Reference definition of a lane's contents: the cards of the included notes whose
      target is that lane, in input order. */
  function Bucket(c: Config, typeMap: map<string, CardType>, notes: seq<Note>, lane: string): seq<Card>
    requires HasFallbackLane(c)
  {
    if |notes| == 0 then []
    else
      var note := notes[|notes| - 1];
      Bucket(c, typeMap, notes[..|notes| - 1], lane)
        + (if Included(c, note) && TargetLane(c, note) == lane then [CardFor(note, typeMap)] else [])
  }

  /** The fold builds exactly the buckets: a key exists for every configured lane and
      for every lane some included note targets, and each holds that lane's bucket. */
  lemma {:induction false} GroupIsBuckets(c: Config, typeMap: map<string, CardType>, notes: seq<Note>, lane: string)
    requires HasFallbackLane(c)
    ensures lane in Group(c, typeMap, notes) <==> lane in c.lanes || Bucket(c, typeMap, notes, lane) != []
    ensures lane in Group(c, typeMap, notes) ==> Group(c, typeMap, notes)[lane] == Bucket(c, typeMap, notes, lane)
  {
    if |notes| > 0 {
      GroupIsBuckets(c, typeMap, notes[..|notes| - 1], lane);
    }
  }

  /** The card `card` stands for `note` in `lane`: the note is included, targets that
      lane, and `card` is its card. */
  predicate Shows(c: Config, typeMap: map<string, CardType>, note: Note, lane: string, card: Card)
    requires HasFallbackLane(c)
  {
    Included(c, note) && TargetLane(c, note) == lane && card == CardFor(note, typeMap)
  }

  /** A card is in a lane's bucket exactly when it is the card of an included note of
      the input that targets that lane. */
  lemma {:induction false} BucketMembers(c: Config, typeMap: map<string, CardType>, notes: seq<Note>, lane: string, card: Card)
    requires HasFallbackLane(c)
    ensures card in Bucket(c, typeMap, notes, lane) <==>
              exists i :: 0 <= i < |notes| && Shows(c, typeMap, notes[i], lane, card)
  {
    if |notes| > 0 {
      var init := notes[..|notes| - 1];
      var last := notes[|notes| - 1];
      BucketMembers(c, typeMap, init, lane, card);
      assert card in Bucket(c, typeMap, notes, lane) <==>
               card in Bucket(c, typeMap, init, lane) || Shows(c, typeMap, last, lane, card);
      if i :| 0 <= i < |init| && Shows(c, typeMap, init[i], lane, card) {
        assert notes[i] == init[i];
      }
      if i :| 0 <= i < |notes| && Shows(c, typeMap, notes[i], lane, card) {
        if i < |init| {
          assert init[i] == notes[i];
        }
      }
    }
  }

  /** Inserts a card before the first card it sorts no later than, so that it stays
      ahead of the cards it ties with. */
  function Insert(x: Card, s: seq<Card>, le: (string, string) -> bool): (r: seq<Card>)
    requires Total(le)
    requires NeighboursSorted(le, s)
    ensures multiset(r) == multiset(s) + multiset{x}
    ensures NeighboursSorted(le, r)
    ensures |r| == |s| + 1 && (r[0] == x || (|s| > 0 && r[0] == s[0]))
  {
    if |s| == 0 then [x]
    else if le(x.note.basename, s[0].note.basename) then [x] + s
    else
      var rest := Insert(x, s[1..], le);
      assert s == [s[0]] + s[1..];
      assert le(s[0].note.basename, rest[0].note.basename);
      [s[0]] + rest
  }

  /** Insertion sort by basename: `list.sort((a, b) => a.basename.localeCompare(b.basename))`. */
  function SortCards(s: seq<Card>, le: (string, string) -> bool): (r: seq<Card>)
    requires Total(le)
    ensures multiset(r) == multiset(s)
    ensures NeighboursSorted(le, r)
  {
    if |s| == 0 then []
    else
      assert s == [s[0]] + s[1..];
      Insert(s[0], SortCards(s[1..], le), le)
  }

  /** `collectNotesByLane`: every configured lane gets a key, even when empty; each
      included note's card is in the lane its status names when that is configured,
      otherwise in the fallback lane; each lane's cards are sorted by basename. */
  function CollectNotesByLane(c: Config, notes: seq<Note>, le: (string, string) -> bool): (r: map<string, seq<Card>>)
    requires HasFallbackLane(c)
    requires TotalPreorder(le)
    ensures forall lane :: lane in c.lanes ==> lane in r
    ensures forall lane :: lane in r ==> lane in c.lanes || lane == FallbackLane(c)
    ensures forall lane :: lane in r ==> SortedByBasename(le, r[lane])
    ensures forall lane :: lane in r ==>
              multiset(r[lane]) == multiset(Bucket(c, TypeMap(c.cardTypes), notes, lane))
  {
    var typeMap := TypeMap(c.cardTypes);
    var grouped := Group(c, typeMap, notes);
    forall lane | lane in grouped
      ensures grouped[lane] == Bucket(c, typeMap, notes, lane)
      ensures lane in c.lanes || lane == FallbackLane(c)
    {
      GroupIsBuckets(c, typeMap, notes, lane);
      if lane !in c.lanes {
        var card := Bucket(c, typeMap, notes, lane)[0];
        BucketMembers(c, typeMap, notes, lane, card);
      }
    }
    forall lane | lane in c.lanes
      ensures lane in grouped
    {
      GroupIsBuckets(c, typeMap, notes, lane);
    }
    var r := map lane | lane in grouped :: SortCards(grouped[lane], le);
    forall lane | lane in r
      ensures SortedByBasename(le, r[lane])
    {
      NeighboursSortedIsSorted(le, r[lane]);
    }
    r
  }

  /** Every included note lands in exactly one lane: its card is in the lane it targets,
      and any card found in a lane belongs to an included input note targeting that lane. */
  lemma ExactlyOneLane(c: Config, notes: seq<Note>, le: (string, string) -> bool, lane: string, card: Card)
    requires HasFallbackLane(c)
    requires TotalPreorder(le)
    ensures var r := CollectNotesByLane(c, notes, le);
            lane in r && card in r[lane] <==>
              exists i :: 0 <= i < |notes| && Shows(c, TypeMap(c.cardTypes), notes[i], lane, card)
  {
    var typeMap := TypeMap(c.cardTypes);
    var r := CollectNotesByLane(c, notes, le);
    BucketMembers(c, typeMap, notes, lane, card);
    GroupIsBuckets(c, typeMap, notes, lane);
    if lane in r {
      assert card in r[lane] <==> card in multiset(r[lane]);
    }
  }

  /** A note outside the tracked folder appears on no lane; in particular, a board whose
      folder normalises to "" shows every configured lane empty and nothing else. */
  lemma ExcludedNotesAbsent(c: Config, notes: seq<Note>, le: (string, string) -> bool)
    requires HasFallbackLane(c)
    requires TotalPreorder(le)
    ensures var r := CollectNotesByLane(c, notes, le);
            forall lane, card :: lane in r && card in r[lane] ==> Included(c, card.note)
    ensures NormalizeFolder(c.notesFolderPath) == "" ==>
              var r := CollectNotesByLane(c, notes, le);
              && (forall lane :: lane in r <==> lane in c.lanes)
              && (forall lane :: lane in r ==> r[lane] == [])
  {
    var r := CollectNotesByLane(c, notes, le);
    forall lane: string, card: Card | lane in r && card in r[lane]
      ensures Included(c, card.note)
    {
      ExactlyOneLane(c, notes, le, lane, card);
    }
    if NormalizeFolder(c.notesFolderPath) == "" {
      forall lane | lane in r
        ensures r[lane] == [] && lane in c.lanes
      {
        if r[lane] != [] {
          ExactlyOneLane(c, notes, le, lane, r[lane][0]);
        }
        GroupIsBuckets(c, TypeMap(c.cardTypes), notes, lane);
      }
    }
  }
}
