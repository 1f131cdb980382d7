/** The Aeon Timeline 3 CSV reader (`CsvTimeline3.read`,
    src/pywaeon3/csv_timeline3.py), from the parsed rows onward.

    The first pass classifies the rows: events and narrative folders are kept
    for later, characters, locations and items each get ids from their own
    running counter. The second pass turns folders into parts and chapters and
    events into scenes, keyed by their zero-padded narrative position. The last
    step sorts the positions, numbers parts and chapters, hands each chapter the
    scenes below its position and appends an "Other events" chapter. */
module CsvTimeline3 {
  import opened Wrappers
  import opened Seqs
  import opened Strings
  import opened Order
  import opened Ids
  import opened Novel
  import opened DtHelper

  /** One CSV record: column label to cell text. */
  type Row = map<string, string>

  const TypeEvent := "Event"
  const TypeNarrative := "Narrative Folder"
  const LabelField := "Label"
  const TypeField := "Type"
  const SceneField := "Narrative Position"
  const StartField := "Start Date"
  const EndField := "End Date"
  const PartMarker := "Part"
  const ChapterMarker := "Chapter"
  const SceneMarker := "Scene"
  const Delimiter := ','
  const OtherEventsTitle := "Other events"
  const OtherEventsDesc := "Scenes generated from events that ar not assigned to the narrative structure."

  /** The date and time pywriter's `Scene` class uses for "no date". */
  const NullDate := "0001-01-01"
  const NullTime := "00:00:00"

  /** The reader's keyword arguments: number prefixes, type names and column
      labels; and whether to follow the viewpoint rule as written or as
      intended (see `WithViewpoint`). */
  datatype Settings = Settings(
    partNrPrefix: string,
    chapterNrPrefix: string,
    typeLocation: string,
    typeItem: string,
    typeCharacter: string,
    partDescField: string,
    chapterDescField: string,
    sceneDescField: string,
    sceneTitleField: string,
    notesField: string,
    tagField: string,
    itemField: string,
    characterField: string,
    viewpointField: string,
    locationField: string,
    characterDescField1: string,
    characterDescField2: string,
    characterDescField3: string,
    characterBioField: string,
    characterAkaField: string,
    locationDescField: string,
    code: Code)

  /** A non-empty number prefix is followed by a space. */
  function NrPrefix(prefix: string): string {
    if |prefix| > 0 then prefix + " " else prefix
  }

  //--- First pass: classification of the rows.

  datatype Kind = EventOrFolder | CharacterRow | LocationRow | ItemRow | Ignored

  /** Events and folders first, then characters, locations and items, in that order of precedence. */
  function KindOf(s: Settings, t: string): Kind {
    if t == TypeEvent || t == TypeNarrative then EventOrFolder
    else if t == s.typeCharacter then CharacterRow
    else if t == s.typeLocation then LocationRow
    else if t == s.typeItem then ItemRow
    else Ignored
  }

  predicate IsKind(s: Settings, row: Row, k: Kind) {
    TypeField in row && KindOf(s, row[TypeField]) == k
  }

  /** The rows of one kind, in table order. */
  function RowsOf(s: Settings, rows: seq<Row>, k: Kind): (r: seq<Row>)
    ensures |r| <= |rows|
    ensures forall j | 0 <= j < |r| :: IsKind(s, r[j], k)
  {
    if |rows| == 0 then []
    else RowsOf(s, rows[..|rows| - 1], k) + (if IsKind(s, rows[|rows| - 1], k) then [rows[|rows| - 1]] else [])
  }

  /** A row the first pass can take: it has a type, and a label when it is a character, location or item. */
  predicate Readable(s: Settings, row: Row) {
    TypeField in row && (KindOf(s, row[TypeField]) in {CharacterRow, LocationRow, ItemRow} ==> LabelField in row)
  }

  function CharacterOf(s: Settings, row: Row): Character
    requires LabelField in row
  {
    var desc :=
      (if s.characterDescField1 in row then [row[s.characterDescField1]] else [])
      + (if |s.characterDescField2| > 0 && s.characterDescField2 in row then [row[s.characterDescField2]] else [])
      + (if |s.characterDescField3| > 0 && s.characterDescField3 in row then [row[s.characterDescField3]] else []);
    NewCharacter.(
      title := Some(row[LabelField]),
      desc := Some(JoinWith(desc, "\n")),
      bio := if s.characterBioField in row then Some(row[s.characterBioField]) else None,
      aka := if s.characterAkaField in row then Some(row[s.characterAkaField]) else None,
      tags := if s.tagField in row && row[s.tagField] != "" then Some(Split(row[s.tagField], Delimiter)) else None,
      notes := if s.notesField in row then Some(row[s.notesField]) else None)
  }

  function LocationOf(s: Settings, row: Row): WorldElement
    requires LabelField in row
  {
    NewWorldElement.(
      title := Some(row[LabelField]),
      desc := if s.locationDescField in row then Some(row[s.locationDescField]) else None,
      tags := if s.tagField in row then Some(Split(row[s.tagField], Delimiter)) else None)
  }

  function ItemOf(row: Row): WorldElement
    requires LabelField in row
  {
    NewWorldElement.(title := Some(row[LabelField]))
  }

  /** What the first pass collects. */
  datatype Tables = Tables(
    events: seq<Row>,
    characters: map<string, Character>,
    srtCharacters: seq<string>,
    chrIdsByTitle: map<string, string>,
    locations: map<string, WorldElement>,
    srtLocations: seq<string>,
    locIdsByTitle: map<string, string>,
    items: map<string, WorldElement>,
    srtItems: seq<string>,
    itmIdsByTitle: map<string, string>)

  const NoTables := Tables([], map[], [], map[], map[], [], map[], map[], [], map[])

  function AddRow(s: Settings, t: Tables, row: Row): Result<Tables> {
    if !Readable(s, row) then Err(CannotParse)
    else match KindOf(s, row[TypeField])
      case EventOrFolder => Ok(t.(events := t.events + [row]))
      case CharacterRow =>
        var id := NatToString(|t.srtCharacters| + 1);
        Ok(t.(characters := t.characters[id := CharacterOf(s, row)],
              srtCharacters := t.srtCharacters + [id],
              chrIdsByTitle := t.chrIdsByTitle[row[LabelField] := id]))
      case LocationRow =>
        var id := NatToString(|t.srtLocations| + 1);
        Ok(t.(locations := t.locations[id := LocationOf(s, row)],
              srtLocations := t.srtLocations + [id],
              locIdsByTitle := t.locIdsByTitle[row[LabelField] := id]))
      case ItemRow =>
        var id := NatToString(|t.srtItems| + 1);
        Ok(t.(items := t.items[id := ItemOf(row)],
              srtItems := t.srtItems + [id],
              itmIdsByTitle := t.itmIdsByTitle[row[LabelField] := id]))
      case Ignored => Ok(t)
  }

  /** The first pass's view of the table: the characters, locations and
      items the rows describe, in table order. */
  function CharacterList(s: Settings, rows: seq<Row>): seq<Character> {
    if |rows| == 0 then []
    else
      var row := rows[|rows| - 1];
      CharacterList(s, rows[..|rows| - 1])
      + (if IsKind(s, row, CharacterRow) && LabelField in row then [CharacterOf(s, row)] else [])
  }

  function LocationList(s: Settings, rows: seq<Row>): seq<WorldElement> {
    if |rows| == 0 then []
    else
      var row := rows[|rows| - 1];
      LocationList(s, rows[..|rows| - 1])
      + (if IsKind(s, row, LocationRow) && LabelField in row then [LocationOf(s, row)] else [])
  }

  function ItemList(s: Settings, rows: seq<Row>): seq<WorldElement> {
    if |rows| == 0 then []
    else
      var row := rows[|rows| - 1];
      ItemList(s, rows[..|rows| - 1])
      + (if IsKind(s, row, ItemRow) && LabelField in row then [ItemOf(row)] else [])
  }

  function CharacterTitle(c: Character): Option<string> { c.title }

  function ElementTitle(e: WorldElement): Option<string> { e.title }

  /** The order is the first `n` ids of a counter, and they are the map's keys. */
  ghost predicate DenseKeys<E>(ents: map<string, E>, srt: seq<string>, n: nat) {
    srt == DenseIds(n) && ents.Keys == Elems(srt)
  }

  /** The title map sends each title to an entity carrying it. */
  ghost predicate TitlesPoint<E>(ents: map<string, E>, byTitle: map<string, string>, titleOf: E -> Option<string>) {
    forall title | title in byTitle :: byTitle[title] in ents && titleOf(ents[byTitle[title]]) == Some(title)
  }

  /** Entity i of `expected` is stored under id i+1, the order is the dense
      ids, and the title map sends each title to an entity carrying it. */
  ghost predicate Numbered<E>(ents: map<string, E>, srt: seq<string>, byTitle: map<string, string>,
                              expected: seq<E>, titleOf: E -> Option<string>) {
    && DenseKeys(ents, srt, |expected|)
    && (forall k | 0 <= k < |srt| :: srt[k] in ents && ents[srt[k]] == expected[k])
    && TitlesPoint(ents, byTitle, titleOf)
  }

  lemma DenseKeysStep<E>(ents: map<string, E>, srt: seq<string>, n: nat, e: E)
    requires DenseKeys(ents, srt, n)
    ensures NatToString(n + 1) !in ents
    ensures DenseKeys(ents[NatToString(n + 1) := e], srt + [NatToString(n + 1)], n + 1)
  {
    var id := NatToString(n + 1);
    DenseIdsNext(n);
    ElemsConcat(srt, [id]);
    assert Elems([id]) == {id};
  }

  lemma TitlesPointStep<E>(ents: map<string, E>, byTitle: map<string, string>, titleOf: E -> Option<string>,
                           id: string, e: E, title: string)
    requires TitlesPoint(ents, byTitle, titleOf) && id !in ents && titleOf(e) == Some(title)
    ensures TitlesPoint(ents[id := e], byTitle[title := id], titleOf)
  {
    var ents2 := ents[id := e];
    var byTitle2 := byTitle[title := id];
    forall t | t in byTitle2 ensures byTitle2[t] in ents2 && titleOf(ents2[byTitle2[t]]) == Some(t) {
      if t != title {
        assert byTitle2[t] == byTitle[t] && byTitle[t] in ents;
      }
    }
  }

  lemma NumberedStep<E>(ents: map<string, E>, srt: seq<string>, byTitle: map<string, string>,
                        expected: seq<E>, titleOf: E -> Option<string>, e: E, title: string)
    requires Numbered(ents, srt, byTitle, expected, titleOf) && titleOf(e) == Some(title)
    ensures var id := NatToString(|srt| + 1);
      Numbered(ents[id := e], srt + [id], byTitle[title := id], expected + [e], titleOf)
  {
    var n := |expected|;
    var id := NatToString(n + 1);
    DenseKeysStep(ents, srt, n, e);
    TitlesPointStep(ents, byTitle, titleOf, id, e, title);
    var srt2 := srt + [id];
    var ents2 := ents[id := e];
    forall k | 0 <= k < |srt2| ensures srt2[k] in ents2 && ents2[srt2[k]] == (expected + [e])[k] {
      if k < n {
        assert srt2[k] == srt[k] && srt[k] in ents && srt[k] != id;
      }
    }
  }

  ghost predicate WellNumbered(s: Settings, rows: seq<Row>, t: Tables) {
    && t.events == RowsOf(s, rows, EventOrFolder)
    && Numbered(t.characters, t.srtCharacters, t.chrIdsByTitle, CharacterList(s, rows), CharacterTitle)
    && Numbered(t.locations, t.srtLocations, t.locIdsByTitle, LocationList(s, rows), ElementTitle)
    && Numbered(t.items, t.srtItems, t.itmIdsByTitle, ItemList(s, rows), ElementTitle)
  }

  /** The first pass over the rows in table order; a row without a type, or a
      character, location or item without a label, makes it fail. */
  function ReadTables(s: Settings, rows: seq<Row>): (r: Result<Tables>)
    ensures r.Ok? <==> forall k | 0 <= k < |rows| :: Readable(s, rows[k])
    ensures r.Err? ==> r.error == CannotParse
    ensures r.Ok? ==> forall k | 0 <= k < |r.value.events| :: TypeField in r.value.events[k]
  {
    if |rows| == 0 then Ok(NoTables)
    else
      var init := rows[..|rows| - 1];
      assert forall k | 0 <= k < |init| :: init[k] == rows[k];
      var t :- ReadTables(s, init);
      AddRow(s, t, rows[|rows| - 1])
  }

  /** One more row extends the list of its own kind and leaves the others alone. */
  lemma ListsSnoc(s: Settings, rows: seq<Row>, row: Row)
    requires Readable(s, row)
    ensures var k := KindOf(s, row[TypeField]); var all := rows + [row];
      && RowsOf(s, all, EventOrFolder) == RowsOf(s, rows, EventOrFolder) + (if k == EventOrFolder then [row] else [])
      && CharacterList(s, all) == CharacterList(s, rows) + (if k == CharacterRow then [CharacterOf(s, row)] else [])
      && LocationList(s, all) == LocationList(s, rows) + (if k == LocationRow then [LocationOf(s, row)] else [])
      && ItemList(s, all) == ItemList(s, rows) + (if k == ItemRow then [ItemOf(row)] else [])
  {
    var all := rows + [row];
    assert all[..|all| - 1] == rows;
  }

  lemma AddCharacterNumbered(s: Settings, rows: seq<Row>, t: Tables, row: Row)
    requires WellNumbered(s, rows, t) && Readable(s, row) && KindOf(s, row[TypeField]) == CharacterRow
    ensures AddRow(s, t, row).Ok? && WellNumbered(s, rows + [row], AddRow(s, t, row).value)
  {
    ListsSnoc(s, rows, row);
    NumberedStep(t.characters, t.srtCharacters, t.chrIdsByTitle, CharacterList(s, rows), CharacterTitle,
                 CharacterOf(s, row), row[LabelField]);
  }

  lemma AddLocationNumbered(s: Settings, rows: seq<Row>, t: Tables, row: Row)
    requires WellNumbered(s, rows, t) && Readable(s, row) && KindOf(s, row[TypeField]) == LocationRow
    ensures AddRow(s, t, row).Ok? && WellNumbered(s, rows + [row], AddRow(s, t, row).value)
  {
    ListsSnoc(s, rows, row);
    NumberedStep(t.locations, t.srtLocations, t.locIdsByTitle, LocationList(s, rows), ElementTitle,
                 LocationOf(s, row), row[LabelField]);
  }

  lemma AddItemNumbered(s: Settings, rows: seq<Row>, t: Tables, row: Row)
    requires WellNumbered(s, rows, t) && Readable(s, row) && KindOf(s, row[TypeField]) == ItemRow
    ensures AddRow(s, t, row).Ok? && WellNumbered(s, rows + [row], AddRow(s, t, row).value)
  {
    ListsSnoc(s, rows, row);
    NumberedStep(t.items, t.srtItems, t.itmIdsByTitle, ItemList(s, rows), ElementTitle,
                 ItemOf(row), row[LabelField]);
  }

  lemma AddRowNumbered(s: Settings, rows: seq<Row>, t: Tables, row: Row)
    requires WellNumbered(s, rows, t) && Readable(s, row)
    ensures AddRow(s, t, row).Ok? && WellNumbered(s, rows + [row], AddRow(s, t, row).value)
  {
    var k := KindOf(s, row[TypeField]);
    if k == CharacterRow {
      AddCharacterNumbered(s, rows, t, row);
    } else if k == LocationRow {
      AddLocationNumbered(s, rows, t, row);
    } else if k == ItemRow {
      AddItemNumbered(s, rows, t, row);
    } else {
      ListsSnoc(s, rows, row);
    }
  }

  /** Characters, locations and items get the dense ids "1", "2", … in table
      order, each kind from its own counter; the title maps point at entities
      with that title. */
  lemma {:induction false} ReadTablesNumbered(s: Settings, rows: seq<Row>)
    requires ReadTables(s, rows).Ok?
    ensures WellNumbered(s, rows, ReadTables(s, rows).value)
  {
    if |rows| > 0 {
      var init := rows[..|rows| - 1];
      var t := ReadTables(s, init).value;
      assert ReadTables(s, rows) == AddRow(s, t, rows[|rows| - 1]);
      ReadTablesNumbered(s, init);
      AddRowNumbered(s, init, t, rows[|rows| - 1]);
      assert init + [rows[|rows| - 1]] == rows;
    }
  }

  //--- Second pass: folders and events.

  /** Python's `zfill(4)` on each dot-separated number of a position. */
  function PadParts(parts: seq<string>): (r: seq<string>)
    ensures |r| == |parts|
    ensures forall k | 0 <= k < |r| :: r[k] == ZFill(parts[k], 4)
  {
    seq(|parts|, k requires 0 <= k < |parts| => ZFill(parts[k], 4))
  }

  /** The sortable form of a narrative position: "1.12" becomes "0001.0012". */
  function PadPosition(pos: string): string {
    JoinWith(PadParts(Split(pos, '.')), ".")
  }

  lemma ZFillKeepsOut(p: string, c: char, width: nat)
    requires c !in p && c != '0'
    ensures c !in ZFill(p, width)
  {
  }

  /** A padded position splits back into the padded numbers, each at least four characters wide. */
  lemma PadPositionParts(pos: string)
    ensures Split(PadPosition(pos), '.') == PadParts(Split(pos, '.'))
    ensures forall k | 0 <= k < |Split(PadPosition(pos), '.')| :: |Split(PadPosition(pos), '.')[k]| >= 4
  {
    var parts := Split(pos, '.');
    var padded := PadParts(parts);
    forall k | 0 <= k < |padded| ensures '.' !in padded[k] {
      ZFillKeepsOut(parts[k], '.', 4);
    }
    SplitJoin(padded, '.');
  }

  /** Padding an already padded position changes nothing. */
  lemma PadPositionIdempotent(pos: string)
    ensures PadPosition(PadPosition(pos)) == PadPosition(pos)
  {
    PadPositionParts(pos);
    var padded := PadParts(Split(pos, '.'));
    assert PadParts(padded) == padded;
  }

  /** Zero-padding a decimal number keeps its value. */
  lemma ZFillValue(p: string)
    requires AllDigits(p)
    ensures AllDigits(ZFill(p, 4)) && DigitsValue(ZFill(p, 4)) == DigitsValue(p)
  {
    if |p| < 4 {
      assert |p| == 0 || IsDigit(p[0]);
      assert ZFill(p, 4) == Repeat('0', 4 - |p|) + p;
      LeadingZeros(4 - |p|, p);
    }
  }

  /** Padding keeps the value of every number of the position. */
  lemma PadPositionValue(pos: string, k: nat)
    requires k < |Split(pos, '.')| && AllDigits(Split(pos, '.')[k])
    ensures k < |Split(PadPosition(pos), '.')|
    ensures AllDigits(Split(PadPosition(pos), '.')[k])
    ensures DigitsValue(Split(PadPosition(pos), '.')[k]) == DigitsValue(Split(pos, '.')[k])
  {
    PadPositionParts(pos);
    ZFillValue(Split(pos, '.')[k]);
  }

  /** The narrative cell: empty, or exactly two words "<marker> <position>"
      split at single spaces. Any other shape fails the tuple unpacking with
      the same ValueError the reader reports as a date/time format error. */
  function Narrative(cell: string): (r: Result<(string, string)>)
    ensures cell == "" ==> r == Ok(("", ""))
    ensures r.Err? <==> cell != "" && |Split(cell, ' ')| != 2
    ensures r.Err? ==> r.error == WrongDateFormat
    ensures r.Ok? && cell != "" ==>
      ' ' !in r.value.0 && exists raw :: ' ' !in raw && cell == r.value.0 + " " + raw && r.value.1 == PadPosition(raw)
  {
    if cell == "" then Ok(("", ""))
    else
      var words := Split(cell, ' ');
      if |words| != 2 then Err(WrongDateFormat)
      else
        assert JoinWith(words, " ") == words[0] + " " + words[1];
        Ok((words[0], PadPosition(words[1])))
  }

  /** The titles' ids, or `None` as soon as one title is unknown. */
  function GetIds(titles: seq<string>, byTitle: map<string, string>): (r: Option<seq<string>>)
    ensures r.Some? <==> forall k | 0 <= k < |titles| :: titles[k] in byTitle
    ensures r.Some? ==> |r.value| == |titles| && forall k | 0 <= k < |titles| :: r.value[k] == byTitle[titles[k]]
  {
    if |titles| == 0 then Some([])
    else if titles[0] !in byTitle then None
    else
      match GetIds(titles[1..], byTitle)
      case None => None
      case Some(rest) => Some([byTitle[titles[0]]] + rest)
  }

  /** Python's `timedelta` of a span of seconds: whole days (floored, so
      possibly negative), then the hours and minutes of the remaining part-day. */
  function Duration(d: int): (r: (int, nat, nat))
    ensures r.1 < 24 && r.2 < 60
    ensures r.0 * 86400 + r.1 * 3600 + r.2 * 60 <= d < r.0 * 86400 + r.1 * 3600 + r.2 * 60 + 60
  {
    var days := d / 86400;
    var secs := d % 86400;
    var hours := secs / 3600;
    var minutes := (secs % 3600) / 60;
    assert secs == hours * 3600 + secs % 3600;
    assert secs % 3600 == minutes * 60 + (secs % 3600) % 60;
    (days, hours, minutes)
  }

  /** Any days, hours and minutes that rebuild the span that way are the ones `Duration` gives. */
  lemma DurationUnique(d: int, days: int, hours: nat, minutes: nat)
    requires hours < 24 && minutes < 60
    requires days * 86400 + hours * 3600 + minutes * 60 <= d < days * 86400 + hours * 3600 + minutes * 60 + 60
    ensures Duration(d) == (days, hours, minutes)
  {
    var (d2, h2, m2) := Duration(d);
    assert days == d2;
    assert hours == h2;
  }

  /** Start date and time of a scene and, when an end is given, its duration as day, hour and minute texts. */
  datatype Times = Times(date: string, time: string, lasts: Option<(string, string, string)>)

  /** The date columns of an event once the start is known to be a date
      from year 100 on. `toSeconds` stands for `datetime.fromisoformat`, giving
      a timestamp in seconds, or `None` where that raises. */
  function DatedTimes(code: Code, row: Row, start: string, toSeconds: string -> Option<int>): (r: Result<Times>)
    ensures r.Ok? ==> StartsWith(start, r.value.date + " " + r.value.time)
    ensures r.Ok? && r.value.lasts.Some? ==>
      && EndField in row && FixIsoDtBy(code, row[EndField]).Ok? && FixIsoDtBy(code, row[EndField]).value.Some?
      && toSeconds(start).Some? && toSeconds(FixIsoDtBy(code, row[EndField]).value.value).Some?
      && var (days, hours, minutes) := Duration(toSeconds(FixIsoDtBy(code, row[EndField]).value.value).value - toSeconds(start).value);
         r.value.lasts.value == (IntToString(days), NatToString(hours), NatToString(minutes))
    ensures r.Ok? && r.value.lasts.None? ==> EndField in row && FixIsoDtBy(code, row[EndField]) == Ok(None)
  {
    var parts := Split(start, ' ');
    if |parts| < 2 then Err(CannotParse)
    else
      assert StartsWith(start, parts[0] + " " + parts[1]) by {
        SplitPrefix(start, ' ');
      }
      if EndField !in row then Err(WrongStructure)
      else EndTimes(parts[0], parts[1], toSeconds(start), FixIsoDtBy(code, row[EndField]), toSeconds)
  }

  /** Start date and time with the duration up to the normalised end, if
      there is one. */
  function EndTimes(date: string, time: string, t0: Option<int>, end: Result<Option<string>>, toSeconds: string -> Option<int>): (r: Result<Times>)
    ensures r.Ok? ==> r.value.date == date && r.value.time == time && end.Ok?
    ensures r.Ok? && r.value.lasts.Some? ==>
      && end.value.Some? && t0.Some? && toSeconds(end.value.value).Some?
      && var (days, hours, minutes) := Duration(toSeconds(end.value.value).value - t0.value);
         r.value.lasts.value == (IntToString(days), NatToString(hours), NatToString(minutes))
    ensures r.Ok? && r.value.lasts.None? ==> end == Ok(None)
  {
    var e :- end;
    if e.None? then Ok(Times(date, time, None))
    else
      var lasts :- Lasts(t0, toSeconds(e.value));
      Ok(Times(date, time, Some(lasts)))
  }

  /** The duration texts between two timestamps, either of which may have failed to parse. */
  function Lasts(t0: Option<int>, t1: Option<int>): (r: Result<(string, string, string)>)
    ensures r.Err? <==> t0.None? || t1.None?
    ensures r.Err? ==> r.error == WrongDateFormat
    ensures r.Ok? ==> var (days, hours, minutes) := Duration(t1.value - t0.value);
      r.value == (IntToString(days), NatToString(hours), NatToString(minutes))
  {
    if t0.None? || t1.None? then Err(WrongDateFormat)
    else
      var (days, hours, minutes) := Duration(t1.value - t0.value);
      Ok((IntToString(days), NatToString(hours), NatToString(minutes)))
  }

  /** The date columns of an event: a start that is empty, "BC" or before
      year 100 gives the null date and time and no duration. */
  function SceneTimes(code: Code, row: Row, toSeconds: string -> Option<int>): (r: Result<Times>)
    ensures StartField !in row ==> r == Err(WrongStructure)
    ensures StartField in row && FixIsoDtBy(code, row[StartField]) == Ok(None) ==> r == Ok(Times(NullDate, NullTime, None))
    ensures StartField in row && FixIsoDtBy(code, row[StartField]).Err? ==> r == Err(WrongDateFormat)
    ensures StartField in row && FixIsoDtBy(code, row[StartField]).Ok? && FixIsoDtBy(code, row[StartField]).value.Some? ==>
      r == DatedTimes(code, row, FixIsoDtBy(code, row[StartField]).value.value, toSeconds)
  {
    if StartField !in row then Err(WrongStructure)
    else
      match FixIsoDtBy(code, row[StartField])
      case Err(e) => Err(e)
      case Ok(None) => Ok(Times(NullDate, NullTime, None))
      case Ok(Some(start)) => DatedTimes(code, row, start, toSeconds)
  }

  /** Puts the viewpoint character in front, as written: when the viewpoint
      is already listed, the original subscripts the bound `remove` method
      and raises a TypeError, which the reader reports as unparsable. */
  function WithViewpoint(characters: Option<seq<string>>, vp: Option<string>): (r: Result<Option<seq<string>>>)
    ensures vp.None? ==> r == Ok(characters)
    ensures r.Err? <==> vp.Some? && characters.Some? && vp.value in characters.value
    ensures r.Err? ==> r.error == CannotParse
    ensures r.Ok? && vp.Some? ==>
      r.value.Some? && |r.value.value| > 0 && r.value.value[0] == vp.value
      && r.value.value[1..] == characters.GetOr([])
  {
    if vp.None? then Ok(characters)
    else if characters.None? then Ok(Some([vp.value]))
    else if vp.value in characters.value then Err(CannotParse)
    else Ok(Some([vp.value] + characters.value))
  }

  /** The viewpoint rule as evidently intended (`remove(vpId)` rather than
      `remove[vpId]`): the viewpoint character moves to the front, and the
      list keeps the same characters. */
  function WithViewpointIntended(characters: Option<seq<string>>, vp: Option<string>): (r: Option<seq<string>>)
    ensures vp.None? ==> r == characters
    ensures vp.Some? ==> r.Some? && |r.value| > 0 && r.value[0] == vp.value
    ensures vp.Some? && characters.Some? && vp.value in characters.value ==> multiset(r.value) == multiset(characters.value)
    ensures vp.Some? && !(characters.Some? && vp.value in characters.value) ==>
      multiset(r.value) == multiset(characters.GetOr([])) + multiset{vp.value}
  {
    if vp.None? then characters
    else if characters.Some? && vp.value in characters.value then
      var rest := RemoveFirst(characters.value, vp.value);
      assert multiset([vp.value] + rest) == multiset{vp.value} + multiset(rest);
      Some([vp.value] + rest)
    else
      var rest := characters.GetOr([]);
      assert multiset([vp.value] + rest) == multiset{vp.value} + multiset(rest);
      Some([vp.value] + rest)
  }

  /** The viewpoint rule the reader follows: as written, or as intended.
      Either way the list holds only the viewpoint character and the
      characters it had. */
  function PutViewpoint(code: Code, characters: Option<seq<string>>, vp: Option<string>): (r: Result<Option<seq<string>>>)
    ensures r.Err? <==> code == AsWritten && vp.Some? && characters.Some? && vp.value in characters.value
    ensures r.Err? ==> r.error == CannotParse
    ensures r.Ok? && vp.None? ==> r.value == characters
    ensures r.Ok? && vp.Some? ==>
      && r.value.Some? && |r.value.value| > 0 && r.value.value[0] == vp.value
      && forall x | x in r.value.value :: x == vp.value || (characters.Some? && x in characters.value)
  {
    if code == AsWritten then WithViewpoint(characters, vp)
    else
      var r := WithViewpointIntended(characters, vp);
      assert vp.Some? ==> forall x | x in r.value :: x == vp.value || (characters.Some? && x in characters.value) by {
        if vp.Some? {
          forall x | x in r.value ensures x == vp.value || (characters.Some? && x in characters.value) {
            assert multiset(r.value)[x] > 0;
          }
        }
      }
      Ok(r)
  }

  /** A scene whose one character is its viewpoint character: as written
      the rule fails; as intended it keeps that one character. */
  lemma PutViewpointAlone(code: Code, id: string)
    ensures code == AsWritten ==> PutViewpoint(code, Some([id]), Some(id)) == Err(CannotParse)
    ensures code == Corrected ==> PutViewpoint(code, Some([id]), Some(id)) == Ok(Some([id]))
  {
    assert IndexOf([id], id) == 0;
    assert [id][..0] + [id][1..] == [];
    assert RemoveFirst([id], id) == [];
    assert WithViewpointIntended(Some([id]), Some(id)) == Some([id] + []);
    assert [id] + [] == [id];
  }

  /** Where the viewpoint character is not listed yet, the code as written does what was intended. */
  lemma WithViewpointAgrees(characters: Option<seq<string>>, vp: Option<string>)
    requires !(vp.Some? && characters.Some? && vp.value in characters.value)
    ensures WithViewpoint(characters, vp) == Ok(WithViewpointIntended(characters, vp))
  {
    if vp.Some? && characters.None? {
      assert [vp.value] + [] == [vp.value];
    }
  }

  /** An event whose viewpoint character is also among its characters: the
      code as written fails the whole read, where the intended rule just
      reorders the list. */
  lemma WithViewpointFailsOnListed()
    ensures WithViewpoint(Some(["1", "2"]), Some("2")) == Err(CannotParse)
    ensures WithViewpointIntended(Some(["1", "2"]), Some("2")) == Some(["2", "1"])
  {
    var xs := ["1", "2"];
    assert xs[0] != "2";
    assert IndexOf(xs, "2") == 1;
    assert xs[..1] + xs[2..] == ["1"];
    assert RemoveFirst(xs, "2") == ["1"];
    assert ["2"] + ["1"] == ["2", "1"];
  }

  /** What the second pass builds: scene and chapter ids by padded position
      (with the positions in the order they were first met), the events
      outside the narrative, the two counters, and the records. */
  datatype Build = Build(
    scIdsByStruc: map<string, string>,
    scPositions: seq<string>,
    chIdsByStruc: map<string, string>,
    chPositions: seq<string>,
    otherEvents: seq<string>,
    eventCount: nat,
    chapterCount: nat,
    chapters: map<string, Chapter>,
    scenes: map<string, Scene>)

  const NoBuild := Build(map[], [], map[], [], [], 0, 0, map[], map[])

  /** A narrative folder: a chapter (level 0) or a part (level 1) gets the
      next chapter id at its position; a later folder at the same position
      takes the position over. Other folders are skipped. A description
      column that is named but absent from the row is a KeyError. */
  function ReadFolder(s: Settings, b: Build, row: Row, ntype: string, npos: string): (r: Result<Build>)
    ensures ntype != ChapterMarker && ntype != PartMarker ==> r == Ok(b)
    ensures r.Err? ==> r.error == WrongStructure
    ensures r.Ok? && (ntype == ChapterMarker || ntype == PartMarker) ==>
      var id := NatToString(b.chapterCount + 1);
      && r.value.chapterCount == b.chapterCount + 1
      && r.value.chIdsByStruc == b.chIdsByStruc[npos := id]
      && id in r.value.chapters
      && r.value.chapters[id].chLevel == Some(if ntype == ChapterMarker then 0 else 1)
      && r.value.chapters[id].srtScenes == []
      && r.value == b.(chapterCount := b.chapterCount + 1,
                       chIdsByStruc := b.chIdsByStruc[npos := id],
                       chPositions := b.chPositions + [npos],
                       chapters := b.chapters[id := r.value.chapters[id]])
  {
    if ntype != ChapterMarker && ntype != PartMarker then Ok(b)
    else
      var level := if ntype == ChapterMarker then 0 else 1;
      var field := if level == 0 then s.chapterDescField else s.partDescField;
      if |field| > 0 && field !in row then Err(WrongStructure)
      else
        var id := NatToString(b.chapterCount + 1);
        var chapter := NewChapter.(chLevel := Some(level), desc := if |field| > 0 then Some(row[field]) else None);
        Ok(b.(chapterCount := b.chapterCount + 1,
              chIdsByStruc := b.chIdsByStruc[npos := id],
              chPositions := b.chPositions + [npos],
              chapters := b.chapters[id := chapter]))
  }

  /** The ids a reference column names, when the row has that column. */
  function ColumnIds(row: Row, field: string, byTitle: map<string, string>): Option<seq<string>> {
    if field in row then GetIds(Split(row[field], Delimiter), byTitle) else None
  }

  /** The viewpoint character's id, when the row names a known one. */
  function ViewpointId(s: Settings, t: Tables, row: Row): Option<string> {
    var vp := if s.viewpointField in row then GetIds([row[s.viewpointField]], t.chrIdsByTitle) else None;
    if vp.Some? then Some(vp.value[0]) else None
  }

  /** What an event's scene takes from its row and its date columns: date,
      time and duration from `times`; description, notes and tags from
      their cells; locations and items looked up by title; the characters
      with the viewpoint character put in front. */
  ghost predicate EventFields(s: Settings, t: Tables, row: Row, times: Times, sc: Scene) {
    && sc.date == Some(times.date) && sc.time == Some(times.time)
    && sc.lastsDays == (if times.lasts.Some? then Some(times.lasts.value.0) else None)
    && sc.lastsHours == (if times.lasts.Some? then Some(times.lasts.value.1) else None)
    && sc.lastsMinutes == (if times.lasts.Some? then Some(times.lasts.value.2) else None)
    && sc.desc == (if s.sceneDescField in row then Some(row[s.sceneDescField]) else None)
    && sc.sceneNotes == (if s.notesField in row then Some(row[s.notesField]) else None)
    && sc.tags == (if s.tagField in row && row[s.tagField] != "" then Some(Split(row[s.tagField], Delimiter)) else None)
    && sc.locations == ColumnIds(row, s.locationField, t.locIdsByTitle)
    && sc.items == ColumnIds(row, s.itemField, t.itmIdsByTitle)
    && PutViewpoint(s.code, ColumnIds(row, s.characterField, t.chrIdsByTitle), ViewpointId(s, t, row)).Ok?
    && sc.characters == PutViewpoint(s.code, ColumnIds(row, s.characterField, t.chrIdsByTitle), ViewpointId(s, t, row)).value
  }

  /** The scene an event becomes, before it is filed. It fails only where
      the viewpoint rule does. */
  function EventScene(s: Settings, t: Tables, row: Row, isNotes: bool, title: string, times: Times): (r: Result<Scene>)
    ensures r.Ok? ==> r.value.isNotesScene == Some(isNotes) && r.value.title == Some(title) && r.value.status == Some(1)
    ensures r.Ok? ==> EventFields(s, t, row, times, r.value)
    ensures r.Ok? <==> PutViewpoint(s.code, ColumnIds(row, s.characterField, t.chrIdsByTitle), ViewpointId(s, t, row)).Ok?
    ensures r.Err? ==> r.error == CannotParse
  {
    var characters := ColumnIds(row, s.characterField, t.chrIdsByTitle);
    var withVp :- PutViewpoint(s.code, characters, ViewpointId(s, t, row));
    Ok(NewScene.(
      isNotesScene := Some(isNotes),
      title := Some(title),
      date := Some(times.date),
      time := Some(times.time),
      lastsDays := if times.lasts.Some? then Some(times.lasts.value.0) else None,
      lastsHours := if times.lasts.Some? then Some(times.lasts.value.1) else None,
      lastsMinutes := if times.lasts.Some? then Some(times.lasts.value.2) else None,
      desc := if s.sceneDescField in row then Some(row[s.sceneDescField]) else None,
      sceneNotes := if s.notesField in row then Some(row[s.notesField]) else None,
      tags := if s.tagField in row && row[s.tagField] != "" then Some(Split(row[s.tagField], Delimiter)) else None,
      locations := ColumnIds(row, s.locationField, t.locIdsByTitle),
      characters := withVp,
      items := ColumnIds(row, s.itemField, t.itmIdsByTitle),
      status := Some(1)))
  }

  /** An event gets the next scene id. One marked "Scene" is a normal scene
      filed under its position; any other is a notes scene for the "Other
      events" chapter. */
  function ReadEvent(s: Settings, t: Tables, toSeconds: string -> Option<int>, b: Build, row: Row,
                     ntype: string, npos: string): (r: Result<Build>)
    ensures s.sceneTitleField !in row ==> r == Err(WrongStructure)
    ensures r.Ok? ==>
      var id := NatToString(b.eventCount + 1);
      && r.value.eventCount == b.eventCount + 1
      && r.value.scenes.Keys == b.scenes.Keys + {id}
      && r.value.scenes[id].isNotesScene == Some(ntype != SceneMarker)
      && r.value.scenes[id].title == Some(row[s.sceneTitleField])
      && r.value.scenes[id].status == Some(1)
      && (ntype == SceneMarker ==>
            r.value.scIdsByStruc == b.scIdsByStruc[npos := id] && r.value.otherEvents == b.otherEvents)
      && (ntype != SceneMarker ==>
            r.value.scIdsByStruc == b.scIdsByStruc && r.value.otherEvents == b.otherEvents + [id])
      && r.value == b.(eventCount := b.eventCount + 1,
                       scenes := b.scenes[id := r.value.scenes[id]],
                       scIdsByStruc := r.value.scIdsByStruc,
                       scPositions := if ntype == SceneMarker then b.scPositions + [npos] else b.scPositions,
                       otherEvents := r.value.otherEvents)
  {
    if s.sceneTitleField !in row then Err(WrongStructure)
    else
      var times :- SceneTimes(s.code, row, toSeconds);
      var scene :- EventScene(s, t, row, ntype != SceneMarker, row[s.sceneTitleField], times);
      var id := NatToString(b.eventCount + 1);
      var b2 := b.(eventCount := b.eventCount + 1, scenes := b.scenes[id := scene]);
      if ntype == SceneMarker then
        Ok(b2.(scIdsByStruc := b.scIdsByStruc[npos := id], scPositions := b.scPositions + [npos]))
      else
        Ok(b2.(otherEvents := b.otherEvents + [id]))
  }

  /** The scene an event becomes takes its date, time and duration from the
      row's date columns and its other fields from the row, as `EventScene`
      states. */
  lemma ReadEventFields(s: Settings, t: Tables, toSeconds: string -> Option<int>, b: Build, row: Row,
                        ntype: string, npos: string, r: Build)
    requires ReadEvent(s, t, toSeconds, b, row, ntype, npos) == Ok(r)
    ensures SceneTimes(s.code, row, toSeconds).Ok?
    ensures var id := NatToString(b.eventCount + 1);
      && id in r.scenes
      && EventFields(s, t, row, SceneTimes(s.code, row, toSeconds).value, r.scenes[id])
  {
    var times := SceneTimes(s.code, row, toSeconds).value;
    var sc := EventScene(s, t, row, ntype != SceneMarker, row[s.sceneTitleField], times).value;
    assert r.scenes[NatToString(b.eventCount + 1)] == sc;
  }

  /** One event or folder row of the second pass. */
  function ReadEntity(s: Settings, t: Tables, toSeconds: string -> Option<int>, b: Build, row: Row): (r: Result<Build>)
    requires TypeField in row
    ensures SceneField !in row ==> r == Err(WrongStructure)
    ensures SceneField in row && Narrative(row[SceneField]).Err? ==> r == Err(WrongDateFormat)
    ensures r.Ok? ==> r.value.eventCount == b.eventCount + (if row[TypeField] == TypeEvent then 1 else 0)
  {
    if SceneField !in row then Err(WrongStructure)
    else
      var narrative :- Narrative(row[SceneField]);
      if row[TypeField] == TypeNarrative then ReadFolder(s, b, row, narrative.0, narrative.1)
      else if row[TypeField] != TypeEvent then Ok(b)
      else ReadEvent(s, t, toSeconds, b, row, narrative.0, narrative.1)
  }

  /** The second pass over the events and folders, in table order. */
  function ReadEvents(s: Settings, t: Tables, toSeconds: string -> Option<int>, rows: seq<Row>): (r: Result<Build>)
    requires forall k | 0 <= k < |rows| :: TypeField in rows[k]
    ensures r.Ok? ==> r.value.eventCount == |Events(rows)|
  {
    if |rows| == 0 then Ok(NoBuild)
    else
      var b :- ReadEvents(s, t, toSeconds, rows[..|rows| - 1]);
      ReadEntity(s, t, toSeconds, b, rows[|rows| - 1])
  }

  /** The rows of type "Event", in table order. */
  function Events(rows: seq<Row>): seq<Row> {
    if |rows| == 0 then []
    else
      var row := rows[|rows| - 1];
      Events(rows[..|rows| - 1]) + (if TypeField in row && row[TypeField] == TypeEvent then [row] else [])
  }

  /** Adding the next id of a counter to a map keyed by the earlier ones. */
  lemma DenseStep<E>(m: map<string, E>, n: nat, e: E)
    requires m.Keys == Elems(DenseIds(n))
    ensures NatToString(n + 1) !in m
    ensures m[NatToString(n + 1) := e].Keys == Elems(DenseIds(n + 1))
  {
    DenseIdsNext(n);
    ElemsConcat(DenseIds(n), [NatToString(n + 1)]);
  }

  /** Chapter ids are dense, every position points at its own chapter or
      part, which has no scenes yet. */
  ghost predicate ChapterIndex(chapters: map<string, Chapter>, count: nat, byPos: map<string, string>, positions: seq<string>) {
    && chapters.Keys == Elems(DenseIds(count))
    && Elems(positions) == byPos.Keys
    && (forall p | p in byPos ::
          && byPos[p] in chapters
          && chapters[byPos[p]].chLevel in {Some(0), Some(1)}
          && chapters[byPos[p]].srtScenes == [])
    && (forall p, q | p in byPos && q in byPos && p != q :: byPos[p] != byPos[q])
  }

  lemma ChapterIndexStep(chapters: map<string, Chapter>, count: nat, byPos: map<string, string>, positions: seq<string>,
                         npos: string, ch: Chapter)
    requires ChapterIndex(chapters, count, byPos, positions)
    requires ch.chLevel in {Some(0), Some(1)} && ch.srtScenes == []
    ensures var id := NatToString(count + 1);
      ChapterIndex(chapters[id := ch], count + 1, byPos[npos := id], positions + [npos])
  {
    var id := NatToString(count + 1);
    DenseStep(chapters, count, ch);
    ElemsConcat(positions, [npos]);
    var chapters2 := chapters[id := ch];
    var byPos2 := byPos[npos := id];
    forall p | p in byPos2
      ensures byPos2[p] in chapters2
      ensures chapters2[byPos2[p]].chLevel in {Some(0), Some(1)}
      ensures chapters2[byPos2[p]].srtScenes == []
    {
      if p != npos {
        assert byPos2[p] == byPos[p] && byPos[p] in chapters;
      }
    }
    forall p, q | p in byPos2 && q in byPos2 && p != q ensures byPos2[p] != byPos2[q] {
      if p == npos {
        assert byPos[q] in chapters;
      } else if q == npos {
        assert byPos[p] in chapters;
      }
    }
  }

  /** Scene ids are dense, scenes filed by position are normal scenes, the
      others are notes scenes, and every scene is an outline. */
  ghost predicate SceneIndex(scenes: map<string, Scene>, count: nat, byPos: map<string, string>, positions: seq<string>,
                             other: seq<string>) {
    && scenes.Keys == Elems(DenseIds(count))
    && Elems(positions) == byPos.Keys
    && (forall p | p in byPos :: byPos[p] in scenes && scenes[byPos[p]].isNotesScene == Some(false))
    && (forall k | 0 <= k < |other| :: other[k] in scenes && scenes[other[k]].isNotesScene == Some(true))
    && (forall id | id in scenes :: scenes[id].status == Some(1))
  }

  lemma SceneIndexFiled(scenes: map<string, Scene>, count: nat, byPos: map<string, string>, positions: seq<string>,
                        other: seq<string>, npos: string, sc: Scene)
    requires SceneIndex(scenes, count, byPos, positions, other)
    requires sc.isNotesScene == Some(false) && sc.status == Some(1)
    ensures var id := NatToString(count + 1);
      SceneIndex(scenes[id := sc], count + 1, byPos[npos := id], positions + [npos], other)
  {
    var id := NatToString(count + 1);
    DenseStep(scenes, count, sc);
    ElemsConcat(positions, [npos]);
    var scenes2 := scenes[id := sc];
    var byPos2 := byPos[npos := id];
    forall p | p in byPos2 ensures byPos2[p] in scenes2 && scenes2[byPos2[p]].isNotesScene == Some(false) {
      if p != npos {
        assert byPos2[p] == byPos[p] && byPos[p] in scenes;
      }
    }
    forall k | 0 <= k < |other| ensures other[k] in scenes2 && scenes2[other[k]].isNotesScene == Some(true) {
      assert other[k] in scenes;
    }
  }

  lemma SceneIndexOther(scenes: map<string, Scene>, count: nat, byPos: map<string, string>, positions: seq<string>,
                        other: seq<string>, sc: Scene)
    requires SceneIndex(scenes, count, byPos, positions, other)
    requires sc.isNotesScene == Some(true) && sc.status == Some(1)
    ensures var id := NatToString(count + 1);
      SceneIndex(scenes[id := sc], count + 1, byPos, positions, other + [id])
  {
    var id := NatToString(count + 1);
    DenseStep(scenes, count, sc);
    var scenes2 := scenes[id := sc];
    var other2 := other + [id];
    forall p | p in byPos ensures byPos[p] in scenes2 && scenes2[byPos[p]].isNotesScene == Some(false) {
      assert byPos[p] in scenes;
    }
    forall k | 0 <= k < |other2| ensures other2[k] in scenes2 && scenes2[other2[k]].isNotesScene == Some(true) {
      if k < |other| {
        assert other2[k] == other[k] && other[k] in scenes;
      }
    }
  }

  ghost predicate ChaptersOk(b: Build) {
    ChapterIndex(b.chapters, b.chapterCount, b.chIdsByStruc, b.chPositions)
  }

  ghost predicate ScenesOk(b: Build) {
    SceneIndex(b.scenes, b.eventCount, b.scIdsByStruc, b.scPositions, b.otherEvents)
  }

  lemma ReadFolderKeeps(s: Settings, b: Build, row: Row, ntype: string, npos: string)
    requires ChaptersOk(b) && ScenesOk(b) && ReadFolder(s, b, row, ntype, npos).Ok?
    ensures ChaptersOk(ReadFolder(s, b, row, ntype, npos).value)
    ensures ScenesOk(ReadFolder(s, b, row, ntype, npos).value)
  {
    if ntype == ChapterMarker || ntype == PartMarker {
      var r := ReadFolder(s, b, row, ntype, npos).value;
      ChapterIndexStep(b.chapters, b.chapterCount, b.chIdsByStruc, b.chPositions, npos,
                       r.chapters[NatToString(b.chapterCount + 1)]);
    }
  }

  lemma ReadEventKeeps(s: Settings, t: Tables, toSeconds: string -> Option<int>, b: Build, row: Row,
                       ntype: string, npos: string)
    requires ChaptersOk(b) && ScenesOk(b) && ReadEvent(s, t, toSeconds, b, row, ntype, npos).Ok?
    ensures ChaptersOk(ReadEvent(s, t, toSeconds, b, row, ntype, npos).value)
    ensures ScenesOk(ReadEvent(s, t, toSeconds, b, row, ntype, npos).value)
  {
    var r := ReadEvent(s, t, toSeconds, b, row, ntype, npos).value;
    var sc := r.scenes[NatToString(b.eventCount + 1)];
    if ntype == SceneMarker {
      SceneIndexFiled(b.scenes, b.eventCount, b.scIdsByStruc, b.scPositions, b.otherEvents, npos, sc);
    } else {
      SceneIndexOther(b.scenes, b.eventCount, b.scIdsByStruc, b.scPositions, b.otherEvents, sc);
    }
  }

  lemma ReadEntityKeeps(s: Settings, t: Tables, toSeconds: string -> Option<int>, b: Build, row: Row)
    requires TypeField in row
    requires ChaptersOk(b) && ScenesOk(b) && ReadEntity(s, t, toSeconds, b, row).Ok?
    ensures ChaptersOk(ReadEntity(s, t, toSeconds, b, row).value)
    ensures ScenesOk(ReadEntity(s, t, toSeconds, b, row).value)
  {
    var narrative := Narrative(row[SceneField]).value;
    if row[TypeField] == TypeNarrative {
      ReadFolderKeeps(s, b, row, narrative.0, narrative.1);
    } else if row[TypeField] == TypeEvent {
      ReadEventKeeps(s, t, toSeconds, b, row, narrative.0, narrative.1);
    }
  }

  /** After the second pass, scenes and chapters carry the dense ids of
      their counters, every position points at a record of the right kind,
      and different chapter positions point at different chapters. */
  lemma {:induction false} ReadEventsOk(s: Settings, t: Tables, toSeconds: string -> Option<int>, rows: seq<Row>)
    requires forall k | 0 <= k < |rows| :: TypeField in rows[k]
    requires ReadEvents(s, t, toSeconds, rows).Ok?
    ensures ChaptersOk(ReadEvents(s, t, toSeconds, rows).value)
    ensures ScenesOk(ReadEvents(s, t, toSeconds, rows).value)
  {
    if |rows| > 0 {
      var init := rows[..|rows| - 1];
      ReadEventsOk(s, t, toSeconds, init);
      ReadEntityKeeps(s, t, toSeconds, ReadEvents(s, t, toSeconds, init).value, rows[|rows| - 1]);
    }
  }

  //--- Chapter structure.

  /** The scene ids filed at the given sorted positions that start with `pos`, in that order. */
  function ScenesUnder(pos: string, sortedSc: seq<string>, byPos: map<string, string>): (r: seq<string>)
    requires Elems(sortedSc) <= byPos.Keys
    ensures |r| <= |sortedSc|
  {
    if |sortedSc| == 0 then []
    else
      var init := sortedSc[..|sortedSc| - 1];
      var last := sortedSc[|sortedSc| - 1];
      assert Elems(init) <= Elems(sortedSc);
      var rest := ScenesUnder(pos, init, byPos);
      assert forall j | 0 <= j < |init| :: init[j] == sortedSc[j];
      rest + (if StartsWith(last, pos) then [byPos[last]] else [])
  }

  /** A scene id is handed over exactly when some position filed under it starts with `pos`. */
  lemma {:induction false} ScenesUnderMembers(pos: string, sortedSc: seq<string>, byPos: map<string, string>)
    requires Elems(sortedSc) <= byPos.Keys
    ensures forall x :: x in ScenesUnder(pos, sortedSc, byPos) <==>
      exists j | 0 <= j < |sortedSc| :: StartsWith(sortedSc[j], pos) && byPos[sortedSc[j]] == x
    decreases |sortedSc|
  {
    if |sortedSc| > 0 {
      var init := sortedSc[..|sortedSc| - 1];
      assert Elems(init) <= Elems(sortedSc);
      ScenesUnderMembers(pos, init, byPos);
      assert forall j | 0 <= j < |init| :: init[j] == sortedSc[j];
    }
  }

  /** Every scene id handed over is one the position map files. */
  lemma ScenesUnderWithin(pos: string, sortedSc: seq<string>, byPos: map<string, string>, known: set<string>)
    requires Elems(sortedSc) <= byPos.Keys
    requires forall q | q in byPos :: byPos[q] in known
    ensures forall j | 0 <= j < |ScenesUnder(pos, sortedSc, byPos)| :: ScenesUnder(pos, sortedSc, byPos)[j] in known
  {
    var under := ScenesUnder(pos, sortedSc, byPos);
    ScenesUnderMembers(pos, sortedSc, byPos);
    forall j | 0 <= j < |under| ensures under[j] in known {
      assert under[j] in under;
    }
  }

  /** Chapters and parts as the last step leaves them, with the order so far
      and the two running numbers. */
  datatype Outline = Outline(chapters: map<string, Chapter>, srtChapters: seq<string>, partNr: nat, chapterNr: nat)

  /** How many of the positions hold a chapter (level 0) rather than a part. */
  function ChapterCount(ps: seq<string>, byPos: map<string, string>, chapters: map<string, Chapter>): (n: nat)
    ensures n <= |ps|
  {
    if |ps| == 0 then 0
    else ChapterCount(ps[..|ps| - 1], byPos, chapters) + (if IsChapterAt(ps[|ps| - 1], byPos, chapters) then 1 else 0)
  }

  predicate IsChapterAt(pos: string, byPos: map<string, string>, chapters: map<string, Chapter>) {
    pos in byPos && byPos[pos] in chapters && chapters[byPos[pos]].chLevel == Some(0)
  }

  /** One chapter position: a chapter gets the next chapter number and the
      given scenes, a part the next part number. */
  function NumberOne(s: Settings, o: Outline, id: string, under: seq<string>): (o2: Outline)
    requires id in o.chapters
    ensures o2.chapters.Keys == o.chapters.Keys && o2.srtChapters == o.srtChapters + [id]
    ensures forall x | x in o2.chapters :: o2.chapters[x].chLevel == o.chapters[x].chLevel
    ensures forall x | x in o2.chapters && x != id :: o2.chapters[x] == o.chapters[x]
    ensures o.chapters[id].chLevel == Some(0) ==>
      && o2.chapterNr == o.chapterNr + 1 && o2.partNr == o.partNr
      && o2.chapters[id].title == Some(NrPrefix(s.chapterNrPrefix) + NatToString(o2.chapterNr))
      && o2.chapters[id].srtScenes == o.chapters[id].srtScenes + under
    ensures o.chapters[id].chLevel != Some(0) ==>
      && o2.partNr == o.partNr + 1 && o2.chapterNr == o.chapterNr
      && o2.chapters[id].title == Some(NrPrefix(s.partNrPrefix) + NatToString(o2.partNr))
      && o2.chapters[id].srtScenes == o.chapters[id].srtScenes
  {
    var ch := o.chapters[id];
    if ch.chLevel == Some(0) then
      var nr := o.chapterNr + 1;
      Outline(o.chapters[id := ch.(title := Some(NrPrefix(s.chapterNrPrefix) + NatToString(nr)), srtScenes := ch.srtScenes + under)],
              o.srtChapters + [id], o.partNr, nr)
    else
      var nr := o.partNr + 1;
      Outline(o.chapters[id := ch.(title := Some(NrPrefix(s.partNrPrefix) + NatToString(nr)))],
              o.srtChapters + [id], nr, o.chapterNr)
  }

  /** Walks the sorted chapter positions, numbering chapters and parts
      separately and handing each chapter the scenes below its position. */
  function NumberChapters(s: Settings, ps: seq<string>, byPos: map<string, string>, chapters: map<string, Chapter>,
                          sortedSc: seq<string>, scByPos: map<string, string>): (o: Outline)
    requires Walkable(ps, byPos, chapters) && Elems(sortedSc) <= scByPos.Keys
    ensures o.chapters.Keys == chapters.Keys
  {
    if |ps| == 0 then Outline(chapters, [], 0, 0)
    else
      var init := ps[..|ps| - 1];
      var pos := ps[|ps| - 1];
      assert forall j | 0 <= j < |init| :: init[j] == ps[j];
      var o := NumberChapters(s, init, byPos, chapters, sortedSc, scByPos);
      NumberOne(s, o, byPos[pos], ScenesUnder(pos, sortedSc, scByPos))
  }

  /** Every chapter position that `NumberChapters` may walk resolves to a chapter. */
  predicate Walkable(ps: seq<string>, byPos: map<string, string>, chapters: map<string, Chapter>) {
    forall j | 0 <= j < |ps| :: ps[j] in byPos && byPos[ps[j]] in chapters
  }

  lemma WalkableInit(ps: seq<string>, byPos: map<string, string>, chapters: map<string, Chapter>)
    requires Walkable(ps, byPos, chapters) && |ps| > 0
    ensures Walkable(ps[..|ps| - 1], byPos, chapters)
  {
    assert forall j | 0 <= j < |ps| - 1 :: ps[..|ps| - 1][j] == ps[j];
  }

  /** The chapter order follows the sorted positions. */
  lemma {:induction false} NumberChaptersOrder(s: Settings, ps: seq<string>, byPos: map<string, string>,
                                               chapters: map<string, Chapter>, sortedSc: seq<string>, scByPos: map<string, string>)
    requires Walkable(ps, byPos, chapters) && Elems(sortedSc) <= scByPos.Keys
    ensures var o := NumberChapters(s, ps, byPos, chapters, sortedSc, scByPos);
      |o.srtChapters| == |ps| && forall k | 0 <= k < |ps| :: o.srtChapters[k] == byPos[ps[k]]
  {
    if |ps| > 0 {
      WalkableInit(ps, byPos, chapters);
      NumberChaptersOrder(s, ps[..|ps| - 1], byPos, chapters, sortedSc, scByPos);
    }
  }

  /** Numbering leaves every chapter's level alone. */
  lemma {:induction false} NumberChaptersLevels(s: Settings, ps: seq<string>, byPos: map<string, string>,
                                                chapters: map<string, Chapter>, sortedSc: seq<string>, scByPos: map<string, string>)
    requires Walkable(ps, byPos, chapters) && Elems(sortedSc) <= scByPos.Keys
    ensures var o := NumberChapters(s, ps, byPos, chapters, sortedSc, scByPos);
      forall x | x in o.chapters :: o.chapters[x].chLevel == chapters[x].chLevel
  {
    if |ps| > 0 {
      WalkableInit(ps, byPos, chapters);
      NumberChaptersLevels(s, ps[..|ps| - 1], byPos, chapters, sortedSc, scByPos);
    }
  }

  /** The running numbers end at the number of chapters and of parts among the positions. */
  lemma {:induction false} NumberChaptersCounts(s: Settings, ps: seq<string>, byPos: map<string, string>,
                                                chapters: map<string, Chapter>, sortedSc: seq<string>, scByPos: map<string, string>)
    requires Walkable(ps, byPos, chapters) && Elems(sortedSc) <= scByPos.Keys
    ensures var o := NumberChapters(s, ps, byPos, chapters, sortedSc, scByPos);
      o.chapterNr == ChapterCount(ps, byPos, chapters) && o.partNr == |ps| - ChapterCount(ps, byPos, chapters)
  {
    if |ps| > 0 {
      var init := ps[..|ps| - 1];
      WalkableInit(ps, byPos, chapters);
      NumberChaptersCounts(s, init, byPos, chapters, sortedSc, scByPos);
      NumberChaptersLevels(s, init, byPos, chapters, sortedSc, scByPos);
    }
  }

  /** What numbering makes of a chapter, stated for the last of the positions walked. */
  ghost predicate EntryNumbered(s: Settings, ps: seq<string>, byPos: map<string, string>, chapters: map<string, Chapter>,
                                sortedSc: seq<string>, scByPos: map<string, string>, result: map<string, Chapter>, k: nat)
    requires Walkable(ps, byPos, chapters) && Elems(sortedSc) <= scByPos.Keys && k < |ps|
  {
    var id := byPos[ps[k]];
    var nr := ChapterCount(ps[..k + 1], byPos, chapters);
    && id in result
    && (IsChapterAt(ps[k], byPos, chapters) ==>
          && result[id].title == Some(NrPrefix(s.chapterNrPrefix) + NatToString(nr))
          && result[id].srtScenes == chapters[id].srtScenes + ScenesUnder(ps[k], sortedSc, scByPos))
    && (!IsChapterAt(ps[k], byPos, chapters) ==>
          && result[id].title == Some(NrPrefix(s.partNrPrefix) + NatToString(k + 1 - nr))
          && result[id].srtScenes == chapters[id].srtScenes)
  }

  /** Only the entry's own chapter matters. */
  lemma EntryNumberedTransfer(s: Settings, ps: seq<string>, byPos: map<string, string>, chapters: map<string, Chapter>,
                              sortedSc: seq<string>, scByPos: map<string, string>, m1: map<string, Chapter>,
                              m2: map<string, Chapter>, k: nat)
    requires Walkable(ps, byPos, chapters) && Elems(sortedSc) <= scByPos.Keys && k < |ps|
    requires EntryNumbered(s, ps, byPos, chapters, sortedSc, scByPos, m1, k)
    requires byPos[ps[k]] in m2 && m2[byPos[ps[k]]] == m1[byPos[ps[k]]]
    ensures EntryNumbered(s, ps, byPos, chapters, sortedSc, scByPos, m2, k)
  {
  }

  /** A chapter no walked position points at is left as it was. */
  lemma {:induction false} NumberChaptersUntouched(s: Settings, ps: seq<string>, byPos: map<string, string>,
                                                   chapters: map<string, Chapter>, sortedSc: seq<string>,
                                                   scByPos: map<string, string>, x: string)
    requires Walkable(ps, byPos, chapters) && Elems(sortedSc) <= scByPos.Keys
    requires x in chapters && forall j | 0 <= j < |ps| :: byPos[ps[j]] != x
    ensures NumberChapters(s, ps, byPos, chapters, sortedSc, scByPos).chapters[x] == chapters[x]
  {
    if |ps| > 0 {
      WalkableInit(ps, byPos, chapters);
      assert forall j | 0 <= j < |ps| - 1 :: ps[..|ps| - 1][j] == ps[j];
      NumberChaptersUntouched(s, ps[..|ps| - 1], byPos, chapters, sortedSc, scByPos, x);
    }
  }

  lemma NumberChaptersLast(s: Settings, ps: seq<string>, byPos: map<string, string>,
                           chapters: map<string, Chapter>, sortedSc: seq<string>, scByPos: map<string, string>)
    requires Walkable(ps, byPos, chapters) && Elems(sortedSc) <= scByPos.Keys && |ps| > 0
    requires forall j | 0 <= j < |ps| - 1 :: byPos[ps[j]] != byPos[ps[|ps| - 1]]
    ensures EntryNumbered(s, ps, byPos, chapters, sortedSc, scByPos,
                          NumberChapters(s, ps, byPos, chapters, sortedSc, scByPos).chapters, |ps| - 1)
  {
    var init := ps[..|ps| - 1];
    var last := ps[|ps| - 1];
    WalkableInit(ps, byPos, chapters);
    NumberChaptersCounts(s, init, byPos, chapters, sortedSc, scByPos);
    var o := NumberChapters(s, init, byPos, chapters, sortedSc, scByPos);
    var id := byPos[last];
    assert forall j | 0 <= j < |init| :: byPos[init[j]] != id by {
      assert forall j | 0 <= j < |init| :: init[j] == ps[j];
    }
    NumberChaptersUntouched(s, init, byPos, chapters, sortedSc, scByPos, id);
    var o2 := NumberOne(s, o, id, ScenesUnder(last, sortedSc, scByPos));
    assert NumberChapters(s, ps, byPos, chapters, sortedSc, scByPos) == o2;
    LastEntry(s, ps, byPos, chapters, sortedSc, scByPos, o);
  }

  /** Numbering the last position on top of the outline of the ones before it. */
  lemma LastEntry(s: Settings, ps: seq<string>, byPos: map<string, string>, chapters: map<string, Chapter>,
                  sortedSc: seq<string>, scByPos: map<string, string>, o: Outline)
    requires Walkable(ps, byPos, chapters) && Elems(sortedSc) <= scByPos.Keys && |ps| > 0
    requires byPos[ps[|ps| - 1]] in o.chapters && o.chapters[byPos[ps[|ps| - 1]]] == chapters[byPos[ps[|ps| - 1]]]
    requires o.chapterNr == ChapterCount(ps[..|ps| - 1], byPos, chapters)
    requires o.partNr == |ps| - 1 - ChapterCount(ps[..|ps| - 1], byPos, chapters)
    ensures EntryNumbered(s, ps, byPos, chapters, sortedSc, scByPos,
                          NumberOne(s, o, byPos[ps[|ps| - 1]], ScenesUnder(ps[|ps| - 1], sortedSc, scByPos)).chapters,
                          |ps| - 1)
  {
    assert ps[..|ps| - 1 + 1] == ps;
  }

  lemma NumberChaptersEarlier(s: Settings, ps: seq<string>, byPos: map<string, string>,
                              chapters: map<string, Chapter>, sortedSc: seq<string>, scByPos: map<string, string>, k: nat)
    requires Walkable(ps, byPos, chapters) && Elems(sortedSc) <= scByPos.Keys && k + 1 < |ps|
    requires byPos[ps[k]] != byPos[ps[|ps| - 1]]
    requires Walkable(ps[..|ps| - 1], byPos, chapters)
    requires EntryNumbered(s, ps[..|ps| - 1], byPos, chapters, sortedSc, scByPos,
                           NumberChapters(s, ps[..|ps| - 1], byPos, chapters, sortedSc, scByPos).chapters, k)
    ensures EntryNumbered(s, ps, byPos, chapters, sortedSc, scByPos,
                          NumberChapters(s, ps, byPos, chapters, sortedSc, scByPos).chapters, k)
  {
    assert ps[..|ps| - 1][..k + 1] == ps[..k + 1];
    assert ps[..|ps| - 1][k] == ps[k];
  }

  /** What numbering makes of the chapter at sorted position `k`, given
      that different positions hold different chapters: a chapter is titled
      with the count of chapters up to it and gets the scenes below its
      position; a part is titled with the count of parts up to it and gets no scenes. */
  lemma {:induction false} NumberChaptersEntry(s: Settings, ps: seq<string>, byPos: map<string, string>,
                                               chapters: map<string, Chapter>, sortedSc: seq<string>,
                                               scByPos: map<string, string>, k: nat)
    requires Walkable(ps, byPos, chapters) && Elems(sortedSc) <= scByPos.Keys
    requires forall i, j | 0 <= i < j < |ps| :: byPos[ps[i]] != byPos[ps[j]]
    requires k < |ps|
    ensures EntryNumbered(s, ps, byPos, chapters, sortedSc, scByPos,
                          NumberChapters(s, ps, byPos, chapters, sortedSc, scByPos).chapters, k)
  {
    if k == |ps| - 1 {
      NumberChaptersLast(s, ps, byPos, chapters, sortedSc, scByPos);
    } else {
      var init := ps[..|ps| - 1];
      WalkableInit(ps, byPos, chapters);
      assert forall i, j | 0 <= i < j < |init| :: byPos[init[i]] != byPos[init[j]] by {
        assert forall j | 0 <= j < |init| :: init[j] == ps[j];
      }
      NumberChaptersEntry(s, init, byPos, chapters, sortedSc, scByPos, k);
      NumberChaptersEarlier(s, ps, byPos, chapters, sortedSc, scByPos, k);
    }
  }

  /** The project the reader leaves: the numbered chapters in position
      order, then the "Other events" chapter with the id after the last
      folder's, holding every event outside the narrative. */
  function Assemble(s: Settings, t: Tables, b: Build): (p: Project)
    requires ChaptersOk(b) && ScenesOk(b)
    ensures p.chapters.Keys == b.chapters.Keys + {NatToString(b.chapterCount + 1)}
    ensures |p.srtChapters| == |SortDistinct(b.chPositions)| + 1
    ensures p.scenes == b.scenes
    ensures p.characters == t.characters && p.srtCharacters == t.srtCharacters
    ensures p.locations == t.locations && p.srtLocations == t.srtLocations
    ensures p.items == t.items && p.srtItems == t.srtItems
  {
    var sortedCh := SortDistinct(b.chPositions);
    var sortedSc := SortDistinct(b.scPositions);
    SortedPositions(b);
    SortedScenePositions(b);
    NumberChaptersOrder(s, sortedCh, b.chIdsByStruc, b.chapters, sortedSc, b.scIdsByStruc);
    var o := NumberChapters(s, sortedCh, b.chIdsByStruc, b.chapters, sortedSc, b.scIdsByStruc);
    var otherId := NatToString(b.chapterCount + 1);
    var other := NewChapter.(title := Some(OtherEventsTitle), desc := Some(OtherEventsDesc), chType := Some(1),
                             srtScenes := b.otherEvents);
    NewProject.(
      chapters := o.chapters[otherId := other],
      srtChapters := o.srtChapters + [otherId],
      scenes := b.scenes,
      characters := t.characters, srtCharacters := t.srtCharacters,
      locations := t.locations, srtLocations := t.srtLocations,
      items := t.items, srtItems := t.srtItems)
  }

  /** The columns the second pass needs, in the order the reader checks them. */
  function RequiredLabels(s: Settings): seq<string> {
    [SceneField, s.sceneTitleField, StartField, EndField]
  }

  /** The first required label the header lacks. */
  function FirstMissing(required: seq<string>, labels: seq<string>): (r: Option<nat>)
    ensures r.None? <==> forall k | 0 <= k < |required| :: required[k] in labels
    ensures r.Some? ==>
      && r.value < |required| && required[r.value] !in labels
      && forall k | 0 <= k < r.value :: required[k] in labels
  {
    if |required| == 0 then None
    else if required[0] !in labels then Some(0)
    else match FirstMissing(required[1..], labels)
      case None => None
      case Some(k) => Some(k + 1)
  }

  /** `CsvTimeline3.read` on a parsed table: the header's labels, the rows
      as label-to-cell maps in table order. */
  function Read(s: Settings, labels: seq<string>, rows: seq<Row>, toSeconds: string -> Option<int>): (r: Result<Project>)
    ensures ReadTables(s, rows).Err? ==> r == Err(CannotParse)
    ensures ReadTables(s, rows).Ok? && FirstMissing(RequiredLabels(s), labels).Some? ==>
      r == Err(MissingLabel(RequiredLabels(s)[FirstMissing(RequiredLabels(s), labels).value]))
  {
    var t :- ReadTables(s, rows);
    var required := RequiredLabels(s);
    match FirstMissing(required, labels)
    case Some(k) => Err(MissingLabel(required[k]))
    case None =>
      var b :- ReadEvents(s, t, toSeconds, t.events);
      ReadEventsOk(s, t, toSeconds, t.events);
      Ok(Assemble(s, t, b))
  }

  //--- What the reader promises about the project it builds.

  /** The chapter positions in ascending order, each resolving to a chapter. */
  lemma SortedPositions(b: Build)
    requires ChaptersOk(b)
    ensures var ps := SortDistinct(b.chPositions);
      && StrictlySorted(ps) && Distinct(ps) && Elems(ps) == b.chIdsByStruc.Keys
      && Walkable(ps, b.chIdsByStruc, b.chapters)
      && forall i, j | 0 <= i < j < |ps| :: b.chIdsByStruc[ps[i]] != b.chIdsByStruc[ps[j]]
  {
    var ps := SortDistinct(b.chPositions);
    StrictlySortedDistinct(ps);
    assert forall j | 0 <= j < |ps| :: ps[j] in Elems(ps);
  }

  lemma SortedScenePositions(b: Build)
    requires ScenesOk(b)
    ensures Elems(SortDistinct(b.scPositions)) <= b.scIdsByStruc.Keys
  {
  }

  /** The chapters follow the ascending narrative positions, and the "Other
      events" chapter, under the id after the last folder's, comes last. */
  lemma AssembleOrder(s: Settings, t: Tables, b: Build)
    requires ChaptersOk(b) && ScenesOk(b)
    ensures var p := Assemble(s, t, b); var ps := SortDistinct(b.chPositions);
      && |p.srtChapters| == |ps| + 1
      && (forall k | 0 <= k < |ps| :: p.srtChapters[k] == b.chIdsByStruc[ps[k]])
      && p.srtChapters[|ps|] == NatToString(b.chapterCount + 1)
  {
    SortedPositions(b);
    SortedScenePositions(b);
    NumberChaptersOrder(s, SortDistinct(b.chPositions), b.chIdsByStruc, b.chapters,
                        SortDistinct(b.scPositions), b.scIdsByStruc);
  }

  /** No chapter is listed twice, and every listed chapter exists. */
  lemma AssembleDistinct(s: Settings, t: Tables, b: Build)
    requires ChaptersOk(b) && ScenesOk(b)
    ensures var p := Assemble(s, t, b);
      Distinct(p.srtChapters) && forall k | 0 <= k < |p.srtChapters| :: p.srtChapters[k] in p.chapters
  {
    var p := Assemble(s, t, b);
    var ps := SortDistinct(b.chPositions);
    AssembleOrder(s, t, b);
    SortedPositions(b);
    var otherId := NatToString(b.chapterCount + 1);
    DenseIdsNext(b.chapterCount);
    OrderDistinct(p.srtChapters, ps, b.chIdsByStruc, b.chapters, otherId);
  }

  /** The folder chapters in position order, then one fresh chapter: no chapter twice, none unknown. */
  lemma OrderDistinct(order: seq<string>, ps: seq<string>, byPos: map<string, string>, chapters: map<string, Chapter>,
                      otherId: string)
    requires Walkable(ps, byPos, chapters) && forall i, j | 0 <= i < j < |ps| :: byPos[ps[i]] != byPos[ps[j]]
    requires |order| == |ps| + 1 && order[|ps|] == otherId && otherId !in chapters
    requires forall k | 0 <= k < |ps| :: order[k] == byPos[ps[k]]
    ensures Distinct(order) && forall k | 0 <= k < |order| :: order[k] in chapters.Keys + {otherId}
  {
  }

  /** The last chapter holds the events outside the narrative, all of them notes scenes. */
  lemma AssembleOther(s: Settings, t: Tables, b: Build)
    requires ChaptersOk(b) && ScenesOk(b)
    ensures var p := Assemble(s, t, b); var last := p.srtChapters[|p.srtChapters| - 1];
      && last in p.chapters
      && p.chapters[last].title == Some(OtherEventsTitle)
      && p.chapters[last].desc == Some(OtherEventsDesc)
      && p.chapters[last].chType == Some(1)
      && p.chapters[last].srtScenes == b.otherEvents
      && forall k | 0 <= k < |b.otherEvents| ::
           b.otherEvents[k] in p.scenes && p.scenes[b.otherEvents[k]].isNotesScene == Some(true)
  {
    AssembleOrder(s, t, b);
  }

  /** The scenes handed to a chapter are normal scenes of the project. */
  lemma ScenesUnderFiled(b: Build, pos: string)
    requires ScenesOk(b)
    ensures var under := ScenesUnder(pos, SortDistinct(b.scPositions), b.scIdsByStruc);
      forall j | 0 <= j < |under| :: under[j] in b.scenes && b.scenes[under[j]].isNotesScene == Some(false)
  {
    var filed := set q | q in b.scIdsByStruc :: b.scIdsByStruc[q];
    assert forall q | q in b.scIdsByStruc :: b.scIdsByStruc[q] in filed;
    ScenesUnderWithin(pos, SortDistinct(b.scPositions), b.scIdsByStruc, filed);
  }

  /** The chapter at sorted position `k`: a chapter is titled with the
      number of chapters up to it and holds the scenes whose position starts
      with its own; a part is titled with the number of parts up to it and
      holds no scenes. */
  /** Every folder's chapter in the project is the one numbering made. */
  lemma AssembleChapter(s: Settings, t: Tables, b: Build, id: string)
    requires ChaptersOk(b) && ScenesOk(b) && id in b.chapters
    ensures Walkable(SortDistinct(b.chPositions), b.chIdsByStruc, b.chapters)
    ensures Elems(SortDistinct(b.scPositions)) <= b.scIdsByStruc.Keys
    ensures id in Assemble(s, t, b).chapters
    ensures Assemble(s, t, b).chapters[id]
         == NumberChapters(s, SortDistinct(b.chPositions), b.chIdsByStruc, b.chapters,
                           SortDistinct(b.scPositions), b.scIdsByStruc).chapters[id]
  {
    SortedPositions(b);
    SortedScenePositions(b);
    DenseIdsNext(b.chapterCount);
  }

  lemma AssembleEntry(s: Settings, t: Tables, b: Build, k: nat)
    requires ChaptersOk(b) && ScenesOk(b) && k < |SortDistinct(b.chPositions)|
    ensures Walkable(SortDistinct(b.chPositions), b.chIdsByStruc, b.chapters)
    ensures var p := Assemble(s, t, b); var ps := SortDistinct(b.chPositions);
      && p.srtChapters[k] == b.chIdsByStruc[ps[k]]
      && EntryNumbered(s, ps, b.chIdsByStruc, b.chapters, SortDistinct(b.scPositions), b.scIdsByStruc, p.chapters, k)
      && b.chapters[b.chIdsByStruc[ps[k]]].srtScenes == []
  {
    var ps := SortDistinct(b.chPositions);
    var sc := SortDistinct(b.scPositions);
    SortedPositions(b);
    AssembleOrder(s, t, b);
    var id := b.chIdsByStruc[ps[k]];
    AssembleChapter(s, t, b, id);
    NumberChaptersEntry(s, ps, b.chIdsByStruc, b.chapters, sc, b.scIdsByStruc, k);
    var o := NumberChapters(s, ps, b.chIdsByStruc, b.chapters, sc, b.scIdsByStruc);
    EntryNumberedTransfer(s, ps, b.chIdsByStruc, b.chapters, sc, b.scIdsByStruc, o.chapters, Assemble(s, t, b).chapters, k);
  }


  lemma {:induction false} EventsOfTable(s: Settings, rows: seq<Row>)
    ensures Events(RowsOf(s, rows, EventOrFolder)) == Events(rows)
  {
    if |rows| > 0 {
      var init := rows[..|rows| - 1];
      var row := rows[|rows| - 1];
      EventsOfTable(s, init);
      var xs := RowsOf(s, init, EventOrFolder);
      var isEvent := TypeField in row && row[TypeField] == TypeEvent;
      assert Events(rows) == Events(init) + (if isEvent then [row] else []);
      if IsKind(s, row, EventOrFolder) {
        assert (xs + [row])[..|xs|] == xs;
        assert Events(xs + [row]) == Events(xs) + (if isEvent then [row] else []);
      } else {
        assert RowsOf(s, rows, EventOrFolder) == xs;
      }
    }
  }

  /** A successful read's tables and second-pass state. */
  lemma ReadParts(s: Settings, labels: seq<string>, rows: seq<Row>, toSeconds: string -> Option<int>)
    requires Read(s, labels, rows, toSeconds).Ok?
    ensures ReadTables(s, rows).Ok?
    ensures var t := ReadTables(s, rows).value;
      && ReadEvents(s, t, toSeconds, t.events).Ok?
      && var b := ReadEvents(s, t, toSeconds, t.events).value;
         && ChaptersOk(b) && ScenesOk(b)
         && b.eventCount == |Events(rows)|
         && Read(s, labels, rows, toSeconds).value == Assemble(s, t, b)
  {
    var t := ReadTables(s, rows).value;
    ReadEventsOk(s, t, toSeconds, t.events);
    ReadTablesNumbered(s, rows);
    EventsOfTable(s, rows);
  }

  /** Characters, locations and items of a read project: the ids "1", "2", …
      of their own counters, in table order, each holding what its row says. */
  lemma ReadEntities(s: Settings, labels: seq<string>, rows: seq<Row>, toSeconds: string -> Option<int>)
    requires Read(s, labels, rows, toSeconds).Ok?
    ensures var p := Read(s, labels, rows, toSeconds).value;
      && p.srtCharacters == DenseIds(|CharacterList(s, rows)|) && p.characters.Keys == Elems(p.srtCharacters)
      && (forall k | 0 <= k < |p.srtCharacters| :: p.characters[p.srtCharacters[k]] == CharacterList(s, rows)[k])
      && p.srtLocations == DenseIds(|LocationList(s, rows)|) && p.locations.Keys == Elems(p.srtLocations)
      && (forall k | 0 <= k < |p.srtLocations| :: p.locations[p.srtLocations[k]] == LocationList(s, rows)[k])
      && p.srtItems == DenseIds(|ItemList(s, rows)|) && p.items.Keys == Elems(p.srtItems)
      && (forall k | 0 <= k < |p.srtItems| :: p.items[p.srtItems[k]] == ItemList(s, rows)[k])
  {
    ReadParts(s, labels, rows, toSeconds);
    ReadTablesNumbered(s, rows);
  }

  /** Every event row becomes one scene, numbered "1", "2", … in table
      order, and every scene is an outline. */
  lemma ReadScenes(s: Settings, labels: seq<string>, rows: seq<Row>, toSeconds: string -> Option<int>)
    requires Read(s, labels, rows, toSeconds).Ok?
    ensures var p := Read(s, labels, rows, toSeconds).value;
      && p.scenes.Keys == Elems(DenseIds(|Events(rows)|))
      && forall id | id in p.scenes :: p.scenes[id].status == Some(1)
  {
    ReadParts(s, labels, rows, toSeconds);
  }

  /** Every scene a listed chapter refers to exists. */
  ghost predicate NoDanglingScenes(p: Project) {
    forall k, j | 0 <= k < |p.srtChapters| && p.srtChapters[k] in p.chapters && 0 <= j < |p.chapters[p.srtChapters[k]].srtScenes| ::
      p.chapters[p.srtChapters[k]].srtScenes[j] in p.scenes
  }

  /** Numbering hands a folder's chapter only scenes of the second pass. */
  lemma NumberedScenesExist(s: Settings, ps: seq<string>, byPos: map<string, string>, chapters: map<string, Chapter>,
                            sc: seq<string>, scByPos: map<string, string>, known: set<string>, k: nat)
    requires Walkable(ps, byPos, chapters) && forall i, j | 0 <= i < j < |ps| :: byPos[ps[i]] != byPos[ps[j]]
    requires Elems(sc) <= scByPos.Keys && k < |ps|
    requires chapters[byPos[ps[k]]].srtScenes == []
    requires forall q | q in scByPos :: scByPos[q] in known
    ensures var o := NumberChapters(s, ps, byPos, chapters, sc, scByPos);
      var id := byPos[ps[k]];
      id in o.chapters && forall j | 0 <= j < |o.chapters[id].srtScenes| :: o.chapters[id].srtScenes[j] in known
  {
    NumberChaptersEntry(s, ps, byPos, chapters, sc, scByPos, k);
    var id := byPos[ps[k]];
    var o := NumberChapters(s, ps, byPos, chapters, sc, scByPos);
    var under := ScenesUnder(ps[k], sc, scByPos);
    if IsChapterAt(ps[k], byPos, chapters) {
      assert o.chapters[id].srtScenes == [] + under;
      ScenesUnderWithin(ps[k], sc, scByPos, known);
    } else {
      assert o.chapters[id].srtScenes == [];
    }
  }

  /** A folder's chapter holds the scenes below its position, or none. */
  lemma AssembleFolderScenes(s: Settings, t: Tables, b: Build, k: nat)
    requires ChaptersOk(b) && ScenesOk(b) && k < |SortDistinct(b.chPositions)|
    ensures var p := Assemble(s, t, b); var id := p.srtChapters[k];
      id in p.chapters && forall j | 0 <= j < |p.chapters[id].srtScenes| :: p.chapters[id].srtScenes[j] in p.scenes
  {
    var ps := SortDistinct(b.chPositions);
    AssembleOrder(s, t, b);
    SortedPositions(b);
    SortedScenePositions(b);
    NumberedScenesExist(s, ps, b.chIdsByStruc, b.chapters, SortDistinct(b.scPositions), b.scIdsByStruc, b.scenes.Keys, k);
    AssembleChapter(s, t, b, b.chIdsByStruc[ps[k]]);
  }

  /** The scenes of the chapter at position `k` of the chapter order exist. */
  lemma AssembleChapterScenes(s: Settings, t: Tables, b: Build, k: nat)
    requires ChaptersOk(b) && ScenesOk(b) && k < |Assemble(s, t, b).srtChapters|
    ensures var p := Assemble(s, t, b); var id := p.srtChapters[k];
      id in p.chapters && forall j | 0 <= j < |p.chapters[id].srtScenes| :: p.chapters[id].srtScenes[j] in p.scenes
  {
    if k < |SortDistinct(b.chPositions)| {
      AssembleFolderScenes(s, t, b, k);
    } else {
      AssembleOther(s, t, b);
    }
  }

  lemma AssembleNoDangling(s: Settings, t: Tables, b: Build)
    requires ChaptersOk(b) && ScenesOk(b)
    ensures NoDanglingScenes(Assemble(s, t, b))
  {
    var p := Assemble(s, t, b);
    forall k, j | 0 <= k < |p.srtChapters| && p.srtChapters[k] in p.chapters && 0 <= j < |p.chapters[p.srtChapters[k]].srtScenes|
      ensures p.chapters[p.srtChapters[k]].srtScenes[j] in p.scenes
    {
      AssembleChapterScenes(s, t, b, k);
    }
  }

  /** The chapters of a read project: none listed twice, all present, no
      dangling scene reference, and the "Other events" chapter last, holding
      only notes scenes. */
  lemma ReadChapters(s: Settings, labels: seq<string>, rows: seq<Row>, toSeconds: string -> Option<int>)
    requires Read(s, labels, rows, toSeconds).Ok?
    ensures var p := Read(s, labels, rows, toSeconds).value;
      && |p.srtChapters| > 0 && Distinct(p.srtChapters)
      && (forall k | 0 <= k < |p.srtChapters| :: p.srtChapters[k] in p.chapters)
      && NoDanglingScenes(p)
      && var last := p.chapters[p.srtChapters[|p.srtChapters| - 1]];
         && last.title == Some(OtherEventsTitle) && last.chType == Some(1)
         && forall j | 0 <= j < |last.srtScenes| :: last.srtScenes[j] in p.scenes && p.scenes[last.srtScenes[j]].isNotesScene == Some(true)
  {
    ReadParts(s, labels, rows, toSeconds);
    var t := ReadTables(s, rows).value;
    var b := ReadEvents(s, t, toSeconds, t.events).value;
    AssembleOrder(s, t, b);
    AssembleDistinct(s, t, b);
    AssembleOther(s, t, b);
    AssembleNoDangling(s, t, b);
  }
}
