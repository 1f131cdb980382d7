/** The older Aeon Timeline CSV reader (`CsvTimeline.read`,
    src/pywaeon3/csv_timeline.py), from the parsed header and rows onward.

    A "Type" column marks an Aeon 3 export, whose column labels are fixed;
    otherwise the configured Aeon 2 labels apply. Every event row (every row,
    for Aeon 2) counts as an event; an event whose narrative cell lacks the
    scene marker is a notes scene, dropped unless all events are exported.
    Locations, characters and items are looked up by title or created with
    the next id of their own counter. All scenes go into one chapter "1":
    the undated ones first, then the dated ones by their start text. */
module CsvTimeline {
  import opened Wrappers
  import opened Seqs
  import opened Strings
  import opened Order
  import opened Ids
  import opened Novel
  import DtHelper
  import CsvTimeline3
  import opened DateOrder

  /** One CSV record: column label to cell text. */
  type Row = map<string, string>

  const TypeLabelV3 := "Type"
  const TitleLabelV3 := "Label"
  const SceneLabelV3 := "Narrative Position"
  const DescriptionLabelV3 := "Summary"
  const EventMarkerV3 := "Event"
  const SceneMarkerV3 := "Scene"

  /** What a scene gets instead of a date before year 100, so that the
      target application does not read a two-digit year as 19xx or 20xx. */
  const PlaceholderDate := "-0001-01-01"
  const PlaceholderTime := "00:00:00"

  const ChapterTitle := "Chapter 1"

  /** The reader's keyword arguments, and whether to follow the viewpoint
      rule as written or as intended (see `CsvTimeline3.WithViewpoint`). */
  datatype Settings = Settings(
    sceneMarker: string,
    titleLabel: string,
    sceneLabel: string,
    startLabel: string,
    endLabel: string,
    descriptionLabel: string,
    notesLabel: string,
    tagLabel: string,
    locationLabel: string,
    itemLabel: string,
    characterLabel: string,
    viewpointLabel: string,
    exportAllEvents: bool,
    code: Code)

  datatype Version = V2 | V3

  /** The settings in force, the export version, and the delimiter of
      multi-value cells. */
  datatype Setup = Setup(s: Settings, version: Version, delimiter: char)

  /** Version detection: a "Type" column means Aeon 3, which fixes four labels. */
  function Detect(s: Settings, fieldnames: seq<string>): (r: Setup)
    ensures r.version == V3 <==> TypeLabelV3 in fieldnames
    ensures r.delimiter == if r.version == V3 then ',' else '|'
    ensures r.version == V3 ==>
      && r.s.titleLabel == TitleLabelV3 && r.s.sceneMarker == SceneMarkerV3
      && r.s.sceneLabel == SceneLabelV3 && r.s.descriptionLabel == DescriptionLabelV3
    ensures r.s.(titleLabel := s.titleLabel, sceneMarker := s.sceneMarker,
                 sceneLabel := s.sceneLabel, descriptionLabel := s.descriptionLabel) == s
    ensures r.version == V2 ==> r.s == s
  {
    if TypeLabelV3 in fieldnames then
      Setup(s.(titleLabel := TitleLabelV3, sceneMarker := SceneMarkerV3,
               sceneLabel := SceneLabelV3, descriptionLabel := DescriptionLabelV3), V3, ',')
    else Setup(s, V2, '|')
  }

  /** The labels every export must have, in the order they are checked. */
  function Required(s: Settings): seq<string> {
    [s.sceneLabel, s.titleLabel, s.startLabel, s.endLabel]
  }

  /** The first label missing from the header is reported. */
  function CheckLabels(labels: seq<string>, fieldnames: seq<string>): (r: Result<()>)
    ensures r.Ok? <==> forall k | 0 <= k < |labels| :: labels[k] in fieldnames
    ensures r.Err? ==>
      && r.error.MissingLabel? && r.error.name in labels && r.error.name !in fieldnames
      && forall k | 0 <= k < IndexOf(labels, r.error.name) :: labels[k] in fieldnames
    decreases |labels|
  {
    if |labels| == 0 then Ok(())
    else if labels[0] !in fieldnames then Err(MissingLabel(labels[0]))
    else
      var r := CheckLabels(labels[1..], fieldnames);
      if r.Err? then
        assert IndexOf(labels, r.error.name) == IndexOf(labels[1..], r.error.name) + 1 by {
          IndexOfTail(labels, r.error.name);
        }
        r
      else r
  }

  lemma IndexOfTail<T>(xs: seq<T>, x: T)
    requires |xs| > 0 && x in xs[1..] && xs[0] != x
    ensures IndexOf(xs, x) == IndexOf(xs[1..], x) + 1
  {
    var i := IndexOf(xs, x);
    var j := IndexOf(xs[1..], x);
    assert xs[j + 1] == x;
    assert xs[1..][i - 1] == x;
  }

  // ---------------------------------------------------------------------
  // Lookup-or-create ids by title (`get_lcIds`, `get_crIds`, `get_itIds`)

  /** The ids of one kind: title to id, id to title, and the ids in creation order. */
  datatype Table = Table(byTitle: map<string, string>, titles: map<string, string>, srt: seq<string>)

  const NoTable := Table(map[], map[], [])

  /** The ids are "1", "2", … in creation order, each with its own
      non-empty title, and the title map is the inverse of the id map. */
  ghost predicate TableOk(t: Table) {
    && t.srt == DenseIds(|t.srt|)
    && t.titles.Keys == Elems(t.srt)
    && "" !in t.byTitle
    && (forall x | x in t.byTitle :: t.byTitle[x] in t.titles && t.titles[t.byTitle[x]] == x)
    && (forall id | id in t.titles :: t.titles[id] in t.byTitle && t.byTitle[t.titles[id]] == id)
  }

  /** `b` keeps every id and title of `a`. */
  ghost predicate Extends(a: Table, b: Table) {
    && a.srt <= b.srt
    && (forall x | x in a.byTitle :: x in b.byTitle && b.byTitle[x] == a.byTitle[x])
    && (forall id | id in a.titles :: id in b.titles && b.titles[id] == a.titles[id])
  }

  /** A new title gets the next id. */
  function Create(t: Table, x: string): Table {
    var id := NatToString(|t.srt| + 1);
    Table(t.byTitle[x := id], t.titles[id := x], t.srt + [id])
  }

  /** The ids of `titles`, creating one for each new non-empty title; an
      empty unknown title gives `None` at once, keeping what was created
      before it. */
  function GetIds(titles: seq<string>, t: Table): (r: (Option<seq<string>>, Table))
    ensures r.0.Some? <==> forall k | 0 <= k < |titles| :: titles[k] != "" || titles[k] in t.byTitle
    ensures r.0.Some? ==>
      && |r.0.value| == |titles|
      && forall k | 0 <= k < |titles| :: titles[k] in r.1.byTitle && r.0.value[k] == r.1.byTitle[titles[k]]
    ensures r.0.Some? ==> r.1.byTitle.Keys == t.byTitle.Keys + Elems(titles)
    ensures forall y | y in t.byTitle :: y in r.1.byTitle && r.1.byTitle[y] == t.byTitle[y]
    decreases |titles|
  {
    if |titles| == 0 then (Some([]), t)
    else if titles[0] !in t.byTitle && titles[0] == "" then (None, t)
    else
      var x := titles[0];
      assert forall k | 1 <= k < |titles| :: titles[1..][k - 1] == titles[k];
      assert Elems(titles) == {x} + Elems(titles[1..]) by {
        assert titles == [x] + titles[1..];
        ElemsConcat([x], titles[1..]);
      }
      var t1 := if x in t.byTitle then t else Create(t, x);
      assert t1.byTitle.Keys == t.byTitle.Keys + {x};
      var (rest, t2) := GetIds(titles[1..], t1);
      assert x in t2.byTitle && t2.byTitle[x] == t1.byTitle[x];
      (if rest.Some? then Some([t1.byTitle[x]] + rest.value) else None, t2)
  }

  lemma CreateOk(t: Table, x: string)
    requires TableOk(t) && x != "" && x !in t.byTitle
    ensures TableOk(Create(t, x)) && Extends(t, Create(t, x))
  {
    var n := |t.srt|;
    DenseIdsNext(n);
    ElemsConcat(t.srt, [NatToString(n + 1)]);
    CreateByTitle(t, x);
    CreateTitles(t, x);
  }

  lemma CreateByTitle(t: Table, x: string)
    requires TableOk(t) && x != "" && x !in t.byTitle
    requires NatToString(|t.srt| + 1) !in Elems(t.srt)
    ensures var t1 := Create(t, x);
      forall y | y in t1.byTitle :: t1.byTitle[y] in t1.titles && t1.titles[t1.byTitle[y]] == y
  {
    var id := NatToString(|t.srt| + 1);
    var t1 := Create(t, x);
    forall y | y in t1.byTitle ensures t1.byTitle[y] in t1.titles && t1.titles[t1.byTitle[y]] == y {
      if y != x {
        assert t.byTitle[y] in t.titles && t.byTitle[y] != id;
      }
    }
  }

  lemma CreateTitles(t: Table, x: string)
    requires TableOk(t) && x != "" && x !in t.byTitle
    requires NatToString(|t.srt| + 1) !in Elems(t.srt)
    ensures var t1 := Create(t, x);
      forall i | i in t1.titles :: t1.titles[i] in t1.byTitle && t1.byTitle[t1.titles[i]] == i
  {
    var id := NatToString(|t.srt| + 1);
    var t1 := Create(t, x);
    forall i | i in t1.titles ensures t1.titles[i] in t1.byTitle && t1.byTitle[t1.titles[i]] == i {
      if i != id {
        assert t.titles[i] != x;
      }
    }
  }

  /** Looking up titles keeps the table well formed and extends it, and
      the ids found name the titles they were looked up for. */
  lemma {:induction false} GetIdsOk(titles: seq<string>, t: Table)
    requires TableOk(t)
    ensures var r := GetIds(titles, t);
      && TableOk(r.1) && Extends(t, r.1)
      && (r.0.Some? ==> forall k | 0 <= k < |titles| :: r.0.value[k] in r.1.titles && r.1.titles[r.0.value[k]] == titles[k])
    decreases |titles|
  {
    if |titles| > 0 {
      var x := titles[0];
      if x in t.byTitle {
        GetIdsOk(titles[1..], t);
      } else if x != "" {
        CreateOk(t, x);
        GetIdsOk(titles[1..], Create(t, x));
      }
    }
  }

  /** Titles that are all known already are looked up without any change. */
  lemma {:induction false} GetIdsKnown(titles: seq<string>, t: Table)
    requires forall k | 0 <= k < |titles| :: titles[k] in t.byTitle
    ensures GetIds(titles, t).1 == t
    decreases |titles|
  {
    if |titles| > 0 {
      assert forall k | 1 <= k < |titles| :: titles[1..][k - 1] == titles[k];
      GetIdsKnown(titles[1..], t);
    }
  }

  /** Looking the same titles up again gives the same ids and changes nothing. */
  lemma GetIdsIdempotent(titles: seq<string>, t: Table)
    requires GetIds(titles, t).0.Some?
    ensures GetIds(titles, GetIds(titles, t).1) == GetIds(titles, t)
  {
    var t1 := GetIds(titles, t).1;
    GetIdsKnown(titles, t1);
  }

  // ---------------------------------------------------------------------
  // Start and end of a scene

  /** When a scene happens: no start, a start the target application could
      not show (the placeholder date), or a start with its duration. */
  datatype When = Undated | Placeholder | Dated(date: string, time: string, lasts: (string, string, string))

  /** The year of a start cell as the reader takes it: the text before the
      first '-' of the text before the first blank, read as a number. */
  function StartYear(start: string): Option<nat> {
    ParseNat(DtHelper.YearText(Split(start, ' ')[0]))
  }

  lemma JoinTwo(parts: seq<string>, sep: string)
    requires |parts| == 2
    ensures JoinWith(parts, sep) == parts[0] + sep + parts[1]
  {
    assert parts[1..] == [parts[1]];
  }

  /** The dates of a row whose start cell is `start`. `toSeconds` stands for
      `datetime.fromisoformat`, giving a timestamp in seconds, or `None`
      where that raises. A start without a blank is an IndexError. */
  function Times(s: Settings, row: Row, start: string, toSeconds: string -> Option<int>): (r: Result<When>)
    ensures r == Ok(Undated) <==> start == ""
    ensures start != "" && StartYear(start).None? ==> r == Err(WrongDateFormat)
    ensures r == Ok(Placeholder) <==>
      start != "" && StartYear(start).Some? && (|Split(start, ' ')| > 2 || StartYear(start).value < 100)
    ensures r.Ok? && r.value.Dated? ==>
      && r.value.date + " " + r.value.time == start
      && StartYear(start).Some? && StartYear(start).value >= 100
      && s.endLabel in row && toSeconds(start).Some? && toSeconds(row[s.endLabel]).Some?
      && var (days, hours, minutes) := CsvTimeline3.Duration(toSeconds(row[s.endLabel]).value - toSeconds(start).value);
         r.value.lasts == (IntToString(days), NatToString(hours), NatToString(minutes))
    ensures r.Err? ==> r.error in {WrongDateFormat, WrongStructure, CannotParse}
  {
    if start == "" then Ok(Undated)
    else
      var parts := Split(start, ' ');
      match StartYear(start)
      case None => Err(WrongDateFormat)
      case Some(year) =>
        if |parts| > 2 || year < 100 then Ok(Placeholder)
        else if |parts| < 2 then Err(CannotParse)
        else if toSeconds(start).None? then Err(WrongDateFormat)
        else if s.endLabel !in row then Err(WrongStructure)
        else if toSeconds(row[s.endLabel]).None? then Err(WrongDateFormat)
        else
          JoinTwo(parts, " ");
          var (days, hours, minutes) := CsvTimeline3.Duration(toSeconds(row[s.endLabel]).value - toSeconds(start).value);
          Ok(Dated(parts[0], parts[1], (IntToString(days), NatToString(hours), NatToString(minutes))))
  }

  // ---------------------------------------------------------------------
  // Which rows become scenes

  /** Every Aeon 2 row is an event; an Aeon 3 row is one when its type says so. */
  predicate IsEvent(c: Setup, row: Row) {
    c.version == V2 || (TypeLabelV3 in row && row[TypeLabelV3] == EventMarkerV3)
  }

  /** A regular scene: no scene marker is configured, or the narrative cell holds it. */
  predicate IsScene(s: Settings, row: Row) {
    s.sceneMarker == "" || (s.sceneLabel in row && Contains(row[s.sceneLabel], s.sceneMarker))
  }

  /** An event becomes a scene when it is a regular one or all events are exported. */
  predicate Kept(s: Settings, row: Row) {
    IsScene(s, row) || s.exportAllEvents
  }

  /** A cell, or "" where the row lacks the column. */
  function Cell(row: Row, column: string): string {
    if column in row then row[column] else ""
  }

  /** The event rows, in table order. */
  function Events(c: Setup, rows: seq<Row>): seq<Row>
    decreases |rows|
  {
    if |rows| == 0 then []
    else Events(c, rows[..|rows| - 1]) + (if IsEvent(c, rows[|rows| - 1]) then [rows[|rows| - 1]] else [])
  }

  /** The scenes the events become, as scene id and start cell: event number
      `j + 1` is scene "j+1", so skipped events leave gaps. */
  function KeyedOf(s: Settings, ev: seq<Row>): seq<Keyed>
    decreases |ev|
  {
    if |ev| == 0 then []
    else
      var row := ev[|ev| - 1];
      KeyedOf(s, ev[..|ev| - 1]) + (if Kept(s, row) then [(NatToString(|ev|), Cell(row, s.startLabel))] else [])
  }

  // ---------------------------------------------------------------------
  // The row loop

  /** The reader's running state: the event counter, the scenes, the scene
      ids without a start and those by start text (with the start texts in
      the order first met), and the three id tables. */
  datatype St = St(
    events: nat,
    scenes: map<string, Scene>,
    undated: seq<string>,
    byDate: map<string, seq<string>>,
    dates: seq<string>,
    lc: Table,
    cr: Table,
    it: Table)

  const NoSt := St(0, map[], [], map[], [], NoTable, NoTable, NoTable)

  /** File a scene id under its start text, or with the undated ones. */
  function File(st: St, id: string, start: string): St {
    if start == "" then st.(undated := st.undated + [id])
    else if start in st.byDate then st.(byDate := st.byDate[start := st.byDate[start] + [id]])
    else st.(byDate := st.byDate[start := [id]], dates := st.dates + [start])
  }

  /** The ids of a multi-value column, or `None` where the row lacks it. */
  function CellIds(c: Setup, row: Row, column: string, t: Table): (Option<seq<string>>, Table) {
    if column in row then GetIds(Split(row[column], c.delimiter), t) else (None, t)
  }

  /** The id of the viewpoint character, if the row names one. */
  function Viewpoint(row: Row, column: string, t: Table): (Option<string>, Table) {
    if column in row then
      var (ids, t1) := GetIds([row[column]], t);
      (if ids.Some? then Some(ids.value[0]) else None, t1)
    else (None, t)
  }

  function DateOf(w: When): Option<string> {
    match w
    case Undated => None
    case Placeholder => Some(PlaceholderDate)
    case Dated(date, _, _) => Some(date)
  }

  function TimeOf(w: When): Option<string> {
    match w
    case Undated => None
    case Placeholder => Some(PlaceholderTime)
    case Dated(_, time, _) => Some(time)
  }

  /** The scene a kept event becomes. */
  function SceneOf(c: Setup, row: Row, w: When, locations: Option<seq<string>>,
                   characters: Option<seq<string>>, items: Option<seq<string>>): Scene
    requires c.s.titleLabel in row
  {
    NewScene.(
      isNotesScene := Some(!IsScene(c.s, row)),
      title := Some(row[c.s.titleLabel]),
      date := DateOf(w),
      time := TimeOf(w),
      lastsDays := if w.Dated? then Some(w.lasts.0) else None,
      lastsHours := if w.Dated? then Some(w.lasts.1) else None,
      lastsMinutes := if w.Dated? then Some(w.lasts.2) else None,
      desc := if c.s.descriptionLabel in row then Some(row[c.s.descriptionLabel]) else None,
      sceneNotes := if c.s.notesLabel in row then Some(row[c.s.notesLabel]) else None,
      tags := if c.s.tagLabel in row && row[c.s.tagLabel] != "" then Some(Split(row[c.s.tagLabel], c.delimiter)) else None,
      locations := locations,
      characters := characters,
      items := items,
      status := Some(1))
  }

  /** The date, time and duration a scene takes from what its start and end
      cells give. */
  ghost predicate TimedBy(w: When, sc: Scene) {
    && sc.date == DateOf(w) && sc.time == TimeOf(w)
    && sc.lastsDays == (if w.Dated? then Some(w.lasts.0) else None)
    && sc.lastsHours == (if w.Dated? then Some(w.lasts.1) else None)
    && sc.lastsMinutes == (if w.Dated? then Some(w.lasts.2) else None)
  }

  /** What a scene takes from its own row: title, notes flag, status, the
      date, time and duration its start and end cells give, and the
      description, notes and tags cells. */
  ghost predicate FromRow(c: Setup, toSeconds: string -> Option<int>, row: Row, sc: Scene) {
    && sc.title == Some(Cell(row, c.s.titleLabel))
    && sc.isNotesScene == Some(!IsScene(c.s, row))
    && sc.status == Some(1)
    && Times(c.s, row, Cell(row, c.s.startLabel), toSeconds).Ok?
    && TimedBy(Times(c.s, row, Cell(row, c.s.startLabel), toSeconds).value, sc)
    && sc.desc == (if c.s.descriptionLabel in row then Some(row[c.s.descriptionLabel]) else None)
    && sc.sceneNotes == (if c.s.notesLabel in row then Some(row[c.s.notesLabel]) else None)
    && sc.tags == (if c.s.tagLabel in row && row[c.s.tagLabel] != "" then Some(Split(row[c.s.tagLabel], c.delimiter)) else None)
  }

  /** The failures the row loop can report. */
  predicate RowError(e: Error) {
    e == WrongStructure || e == WrongDateFormat || e == CannotParse
  }

  /** The ids a kept event refers to, and the tables after looking them up. */
  datatype Lookups = Lookups(
    locations: Option<seq<string>>,
    characters: Option<seq<string>>,
    items: Option<seq<string>>,
    lc: Table,
    cr: Table,
    it: Table)

  /** Locations, then characters, then the viewpoint character, then items;
      a viewpoint character also listed among the characters fails as
      written (see `CsvTimeline3.PutViewpoint`). */
  function Lookup(c: Setup, row: Row, st: St): (r: Result<Lookups>)
    ensures r.Err? ==> r.error == CannotParse
  {
    var (lcs, lc) := CellIds(c, row, c.s.locationLabel, st.lc);
    var (characters, cr) :- CharacterIds(c, row, st.cr);
    var (its, it) := CellIds(c, row, c.s.itemLabel, st.it);
    Ok(Lookups(lcs, characters, its, lc, cr, it))
  }

  /** The character column, then the viewpoint character put in front. */
  function CharacterIds(c: Setup, row: Row, t: Table): (r: Result<(Option<seq<string>>, Table)>)
    ensures r.Err? ==> r.error == CannotParse
  {
    var (crs, t1) := CellIds(c, row, c.s.characterLabel, t);
    var (vp, t2) := Viewpoint(row, c.s.viewpointLabel, t1);
    var characters :- CsvTimeline3.PutViewpoint(c.s.code, crs, vp);
    Ok((characters, t2))
  }

  /** One row. A missing column the row needs is a KeyError; a row that is
      not an event is skipped; an event that is not kept only counts. */
  function ReadRow(c: Setup, toSeconds: string -> Option<int>, st: St, row: Row): (r: Result<St>)
    ensures c.version == V3 && TypeLabelV3 !in row ==> r == Err(WrongStructure)
    ensures r.Err? ==> RowError(r.error)
    ensures r.Ok? && !IsEvent(c, row) ==> r.value == st
    ensures r.Ok? && IsEvent(c, row) && !Kept(c.s, row) ==> r.value == st.(events := st.events + 1)
    ensures r.Ok? && IsEvent(c, row) && Kept(c.s, row) ==>
      && c.s.titleLabel in row && c.s.startLabel in row
      && Lookup(c, row, st).Ok?
      && var id := NatToString(st.events + 1);
         var l := Lookup(c, row, st).value;
         && r.value.events == st.events + 1
         && r.value.scenes.Keys == st.scenes.Keys + {id}
         && (forall x | x in st.scenes && x != id :: r.value.scenes[x] == st.scenes[x])
         && FromRow(c, toSeconds, row, r.value.scenes[id])
         && r.value.scenes[id].locations == l.locations
         && r.value.scenes[id].characters == l.characters
         && r.value.scenes[id].items == l.items
         && r.value.lc == l.lc && r.value.cr == l.cr && r.value.it == l.it
         && var f := File(st, id, row[c.s.startLabel]);
            r.value.undated == f.undated && r.value.byDate == f.byDate && r.value.dates == f.dates
  {
    if c.version == V3 && TypeLabelV3 !in row then Err(WrongStructure)
    else if !IsEvent(c, row) then Ok(st)
    else if c.s.sceneMarker != "" && c.s.sceneLabel !in row then Err(WrongStructure)
    else if !Kept(c.s, row) then Ok(st.(events := st.events + 1))
    else if c.s.titleLabel !in row || c.s.startLabel !in row then Err(WrongStructure)
    else
      var start := row[c.s.startLabel];
      var w :- Times(c.s, row, start, toSeconds);
      var id := NatToString(st.events + 1);
      var l :- Lookup(c, row, st);
      var scene := SceneOf(c, row, w, l.locations, l.characters, l.items);
      Ok(File(st, id, start).(events := st.events + 1, scenes := st.scenes[id := scene], lc := l.lc, cr := l.cr, it := l.it))
  }

  /** All rows, in table order; the first failure ends the read. */
  function ReadRows(c: Setup, toSeconds: string -> Option<int>, rows: seq<Row>): (r: Result<St>)
    ensures r.Err? ==> RowError(r.error)
    decreases |rows|
  {
    if |rows| == 0 then Ok(NoSt)
    else
      var st :- ReadRows(c, toSeconds, rows[..|rows| - 1]);
      ReadRow(c, toSeconds, st, rows[|rows| - 1])
  }

  // ---------------------------------------------------------------------
  // Lookups within one row

  /** The ids name the given titles in the table, position by position. */
  ghost predicate Names(ids: Option<seq<string>>, titles: seq<string>, t: Table) {
    ids.Some? ==>
      && |ids.value| == |titles|
      && forall k | 0 <= k < |titles| :: ids.value[k] in t.titles && t.titles[ids.value[k]] == titles[k]
  }

  /** Every id is in the table. */
  ghost predicate Refers(ids: Option<seq<string>>, t: Table) {
    ids.Some? ==> forall k | 0 <= k < |ids.value| :: ids.value[k] in t.titles
  }

  lemma ExtendsTrans(a: Table, b: Table, d: Table)
    requires Extends(a, b) && Extends(b, d)
    ensures Extends(a, d)
  {
  }

  lemma NamesExtends(ids: Option<seq<string>>, titles: seq<string>, a: Table, b: Table)
    requires Names(ids, titles, a) && Extends(a, b)
    ensures Names(ids, titles, b)
  {
  }

  lemma RefersExtends(ids: Option<seq<string>>, a: Table, b: Table)
    requires Refers(ids, a) && Extends(a, b)
    ensures Refers(ids, b)
  {
  }

  /** A multi-value column gives ids exactly when the row has the column and
      none of its titles is empty; the ids then name those titles. */
  lemma CellIdsOk(c: Setup, row: Row, column: string, t: Table)
    requires TableOk(t)
    ensures var (ids, t1) := CellIds(c, row, column, t);
      && TableOk(t1) && Extends(t, t1)
      && (ids.Some? <==> column in row && forall k | 0 <= k < |Split(row[column], c.delimiter)| :: Split(row[column], c.delimiter)[k] != "")
      && Names(ids, Split(Cell(row, column), c.delimiter), t1)
  {
    if column in row {
      GetIdsSome(Split(row[column], c.delimiter), t);
      GetIdsOk(Split(row[column], c.delimiter), t);
    }
  }

  /** With no empty title in the table, the lookup fails exactly on an empty title. */
  lemma GetIdsSome(titles: seq<string>, t: Table)
    requires "" !in t.byTitle
    ensures GetIds(titles, t).0.Some? <==> forall k | 0 <= k < |titles| :: titles[k] != ""
  {
  }

  /** The viewpoint column gives an id exactly when its cell is not empty,
      and the id names that cell. */
  lemma ViewpointOk(row: Row, column: string, t: Table)
    requires TableOk(t)
    ensures var (vp, t1) := Viewpoint(row, column, t);
      && TableOk(t1) && Extends(t, t1)
      && (vp.Some? <==> Cell(row, column) != "")
      && (vp.Some? ==> vp.value in t1.titles && t1.titles[vp.value] == row[column])
  {
    if column in row {
      assert "" !in t.byTitle;
      GetIdsOk([row[column]], t);
    }
  }

  /** The character ids of a scene: after a non-empty viewpoint cell the
      viewpoint character comes first; otherwise they name the titles of
      the character column. */
  ghost predicate CharactersNamed(c: Setup, row: Row, ids: Option<seq<string>>, t: Table) {
    && Refers(ids, t)
    && (Cell(row, c.s.viewpointLabel) != "" ==>
          ids.Some? && |ids.value| > 0 && t.titles[ids.value[0]] == row[c.s.viewpointLabel])
    && (Cell(row, c.s.viewpointLabel) == "" ==>
          Names(ids, Split(Cell(row, c.s.characterLabel), c.delimiter), t))
  }

  lemma CharacterIdsOk(c: Setup, row: Row, t: Table)
    requires TableOk(t) && CharacterIds(c, row, t).Ok?
    ensures var (ids, t2) := CharacterIds(c, row, t).value;
      TableOk(t2) && Extends(t, t2) && CharactersNamed(c, row, ids, t2)
  {
    var (crs, t1) := CellIds(c, row, c.s.characterLabel, t);
    var (vp, t2) := Viewpoint(row, c.s.viewpointLabel, t1);
    CellIdsOk(c, row, c.s.characterLabel, t);
    ViewpointOk(row, c.s.viewpointLabel, t1);
    ExtendsTrans(t, t1, t2);
    NamesExtends(crs, Split(Cell(row, c.s.characterLabel), c.delimiter), t1, t2);
    assert Refers(crs, t2);
    PutViewpointRefers(c.s.code, crs, vp, t2);
  }

  /** Putting a known viewpoint character in front of known characters
      leaves only known ids. */
  lemma PutViewpointRefers(code: Code, crs: Option<seq<string>>, vp: Option<string>, t: Table)
    requires Refers(crs, t) && (vp.Some? ==> vp.value in t.titles)
    requires CsvTimeline3.PutViewpoint(code, crs, vp).Ok?
    ensures Refers(CsvTimeline3.PutViewpoint(code, crs, vp).value, t)
  {
    var characters := CsvTimeline3.PutViewpoint(code, crs, vp).value;
    if vp.Some? {
      forall k | 0 <= k < |characters.value| ensures characters.value[k] in t.titles {
        assert characters.value[k] in characters.value;
        if characters.value[k] != vp.value {
          var i :| 0 <= i < |crs.value| && crs.value[i] == characters.value[k];
        }
      }
    }
  }

  /** The three tables stay well formed. */
  ghost predicate TablesOk(st: St) {
    TableOk(st.lc) && TableOk(st.cr) && TableOk(st.it)
  }

  /** The location, character and item ids of a scene name the titles of
      its row. */
  ghost predicate Resolves(c: Setup, row: Row, sc: Scene, st: St) {
    && Names(sc.locations, Split(Cell(row, c.s.locationLabel), c.delimiter), st.lc)
    && Names(sc.items, Split(Cell(row, c.s.itemLabel), c.delimiter), st.it)
    && CharactersNamed(c, row, sc.characters, st.cr)
  }

  /** The lookups keep the tables well formed and only extend them, and
      the ids found name the titles of the row. */
  lemma LookupOk(c: Setup, row: Row, st: St)
    requires TablesOk(st) && Lookup(c, row, st).Ok?
    ensures var l := Lookup(c, row, st).value;
      && TablesOk(st.(lc := l.lc, cr := l.cr, it := l.it))
      && Extends(st.lc, l.lc) && Extends(st.cr, l.cr) && Extends(st.it, l.it)
      && Names(l.locations, Split(Cell(row, c.s.locationLabel), c.delimiter), l.lc)
      && Names(l.items, Split(Cell(row, c.s.itemLabel), c.delimiter), l.it)
      && CharactersNamed(c, row, l.characters, l.cr)
  {
    CellIdsOk(c, row, c.s.locationLabel, st.lc);
    CharacterIdsOk(c, row, st.cr);
    CellIdsOk(c, row, c.s.itemLabel, st.it);
  }

  lemma ResolvesExtends(c: Setup, row: Row, sc: Scene, st: St, st2: St)
    requires Resolves(c, row, sc, st)
    requires Extends(st.lc, st2.lc) && Extends(st.cr, st2.cr) && Extends(st.it, st2.it)
    ensures Resolves(c, row, sc, st2)
  {
    NamesExtends(sc.locations, Split(Cell(row, c.s.locationLabel), c.delimiter), st.lc, st2.lc);
    NamesExtends(sc.items, Split(Cell(row, c.s.itemLabel), c.delimiter), st.it, st2.it);
    if Cell(row, c.s.viewpointLabel) == "" {
      NamesExtends(sc.characters, Split(Cell(row, c.s.characterLabel), c.delimiter), st.cr, st2.cr);
    }
    RefersExtends(sc.characters, st.cr, st2.cr);
  }

  // ---------------------------------------------------------------------
  // One step of the row loop

  /** What reading a kept event does to the state: the next scene id, a
      scene taken from the row, filed under its start cell, and nothing
      else changed. */
  ghost predicate KeptScenes(c: Setup, toSeconds: string -> Option<int>, st: St, row: Row, st2: St) {
    var id := NatToString(st.events + 1);
    && c.s.startLabel in row
    && st2.events == st.events + 1
    && st2.scenes.Keys == st.scenes.Keys + {id}
    && (forall x | x in st.scenes && x != id :: st2.scenes[x] == st.scenes[x])
    && FromRow(c, toSeconds, row, st2.scenes[id])
    && var f := File(st, id, row[c.s.startLabel]);
       st2.undated == f.undated && st2.byDate == f.byDate && st2.dates == f.dates
  }

  /** The tables after a kept event: still well formed, only extended, and
      naming the titles of the new scene's row. */
  ghost predicate KeptTables(c: Setup, st: St, row: Row, st2: St) {
    var id := NatToString(st.events + 1);
    && id in st2.scenes
    && Resolves(c, row, st2.scenes[id], st2)
    && TablesOk(st2)
    && Extends(st.lc, st2.lc) && Extends(st.cr, st2.cr) && Extends(st.it, st2.it)
  }

  ghost predicate KeptStep(c: Setup, toSeconds: string -> Option<int>, st: St, row: Row, st2: St) {
    KeptScenes(c, toSeconds, st, row, st2) && KeptTables(c, st, row, st2)
  }

  lemma ReadRowKeptTables(c: Setup, toSeconds: string -> Option<int>, st: St, row: Row)
    requires TablesOk(st) && ReadRow(c, toSeconds, st, row).Ok? && IsEvent(c, row) && Kept(c.s, row)
    ensures KeptTables(c, st, row, ReadRow(c, toSeconds, st, row).value)
  {
    LookupOk(c, row, st);
  }

  /** A row that is not an event changes nothing, an event that is not kept
      only counts, and a kept event takes a step as above. */
  lemma ReadRowStep(c: Setup, toSeconds: string -> Option<int>, st: St, row: Row)
    requires TablesOk(st) && ReadRow(c, toSeconds, st, row).Ok?
    ensures var st2 := ReadRow(c, toSeconds, st, row).value;
      && (!IsEvent(c, row) ==> st2 == st)
      && (IsEvent(c, row) && !Kept(c.s, row) ==> st2 == st.(events := st.events + 1))
      && (IsEvent(c, row) && Kept(c.s, row) ==> KeptStep(c, toSeconds, st, row, st2))
  {
    if IsEvent(c, row) && Kept(c.s, row) {
      ReadRowKeptTables(c, toSeconds, st, row);
    }
  }

  // ---------------------------------------------------------------------
  // What the row loop keeps

  /** The event counter, and the ids of exactly the kept events' scenes. */
  ghost predicate Counted(s: Settings, ev: seq<Row>, st: St) {
    st.events == |ev| && st.scenes.Keys == Elems(IdsOf(KeyedOf(s, ev)))
  }

  /** Every scene id is filed under its start cell, in reading order. */
  ghost predicate Filed(ks: seq<Keyed>, st: St) {
    && st.undated == IdsOf(With(ks, ""))
    && st.dates == FirstDates(ks)
    && st.byDate.Keys == Elems(st.dates)
    && forall d | d in st.byDate :: st.byDate[d] == IdsOf(With(ks, d))
  }

  /** The scene of each kept event comes from its row. */
  ghost predicate Described(c: Setup, toSeconds: string -> Option<int>, ev: seq<Row>, st: St) {
    forall j | 0 <= j < |ev| && Kept(c.s, ev[j]) ::
      NatToString(j + 1) in st.scenes && FromRow(c, toSeconds, ev[j], st.scenes[NatToString(j + 1)])
  }

  /** The scene of each kept event names the titles of its row. */
  ghost predicate Resolved(c: Setup, ev: seq<Row>, st: St) {
    forall j | 0 <= j < |ev| && Kept(c.s, ev[j]) ::
      NatToString(j + 1) in st.scenes ==> Resolves(c, ev[j], st.scenes[NatToString(j + 1)], st)
  }

  lemma EventsSnoc(c: Setup, rows: seq<Row>, row: Row)
    ensures Events(c, rows + [row]) == Events(c, rows) + (if IsEvent(c, row) then [row] else [])
  {
    assert (rows + [row])[..|rows|] == rows;
  }

  lemma KeyedSnoc(s: Settings, ev: seq<Row>, row: Row)
    ensures KeyedOf(s, ev + [row]) ==
      KeyedOf(s, ev) + (if Kept(s, row) then [(NatToString(|ev| + 1), Cell(row, s.startLabel))] else [])
  {
    assert (ev + [row])[..|ev|] == ev;
  }

  lemma IdsWithSnoc(ks: seq<Keyed>, k: Keyed, d: string)
    ensures IdsOf(With(ks + [k], d)) == IdsOf(With(ks, d)) + (if k.1 == d then [k.0] else [])
  {
    WithSnoc(ks, k, d);
    IdsOfConcat(With(ks, d), if k.1 == d then [k] else []);
  }

  lemma FirstDatesSnoc(ks: seq<Keyed>, k: Keyed)
    ensures FirstDates(ks + [k]) == FirstDates(ks) + (if k.1 != "" && k.1 !in FirstDates(ks) then [k.1] else [])
  {
    assert (ks + [k])[..|ks|] == ks;
  }

  lemma CountedKept(s: Settings, ev: seq<Row>, st: St, row: Row, st2: St)
    requires Counted(s, ev, st) && Kept(s, row)
    requires st2.events == st.events + 1 && st2.scenes.Keys == st.scenes.Keys + {NatToString(st.events + 1)}
    ensures Counted(s, ev + [row], st2)
  {
    KeyedSnoc(s, ev, row);
    var ks := KeyedOf(s, ev);
    var k := (NatToString(|ev| + 1), Cell(row, s.startLabel));
    assert KeyedOf(s, ev + [row]) == ks + [k];
    IdsOfConcat(ks, [k]);
    assert IdsOf([k]) == [k.0];
    ElemsConcat(IdsOf(ks), [k.0]);
  }

  lemma CountedSkipped(s: Settings, ev: seq<Row>, st: St, row: Row)
    requires Counted(s, ev, st) && !Kept(s, row)
    ensures Counted(s, ev + [row], st.(events := st.events + 1))
  {
    KeyedSnoc(s, ev, row);
    assert KeyedOf(s, ev + [row]) == KeyedOf(s, ev);
  }

  /** An undated scene joins the undated ones. */
  lemma FiledUndated(ks: seq<Keyed>, st: St, id: string)
    requires Filed(ks, st)
    ensures Filed(ks + [(id, "")], File(st, id, ""))
  {
    var k := (id, "");
    IdsWithSnoc(ks, k, "");
    FirstDatesSnoc(ks, k);
    forall d | d in st.byDate ensures st.byDate[d] == IdsOf(With(ks + [k], d)) {
      assert d in Elems(FirstDates(ks));
      IdsWithSnoc(ks, k, d);
    }
  }

  /** A scene with a start met before joins that start's scenes. */
  lemma FiledKnown(ks: seq<Keyed>, st: St, id: string, start: string)
    requires Filed(ks, st) && start != "" && start in st.byDate
    ensures Filed(ks + [(id, start)], File(st, id, start))
  {
    var k := (id, start);
    var st2 := File(st, id, start);
    IdsWithSnoc(ks, k, "");
    FirstDatesSnoc(ks, k);
    assert start in Elems(FirstDates(ks));
    forall d | d in st2.byDate ensures st2.byDate[d] == IdsOf(With(ks + [k], d)) {
      IdsWithSnoc(ks, k, d);
    }
  }

  /** A scene with a new start opens a group of its own. */
  lemma FiledNew(ks: seq<Keyed>, st: St, id: string, start: string)
    requires Filed(ks, st) && start != "" && start !in st.byDate
    ensures Filed(ks + [(id, start)], File(st, id, start))
  {
    var k := (id, start);
    var st2 := File(st, id, start);
    assert st2 == st.(byDate := st.byDate[start := [id]], dates := st.dates + [start]);
    assert start !in FirstDates(ks) by {
      assert start !in Elems(st.dates);
    }
    assert st2.undated == IdsOf(With(ks + [k], "")) by {
      IdsWithSnoc(ks, k, "");
    }
    assert st2.dates == FirstDates(ks + [k]) by {
      FirstDatesSnoc(ks, k);
    }
    assert st2.byDate.Keys == Elems(st2.dates) by {
      ElemsConcat(st.dates, [start]);
    }
    assert IdsOf(With(ks, start)) == [] by {
      assert start !in StartsOf(ks);
      WithNone(ks, start);
    }
    FiledNewGroups(ks, st.byDate, id, start);
  }

  /** The groups after a new start: the old ones, and the new start's own. */
  lemma FiledNewGroups(ks: seq<Keyed>, byDate: map<string, seq<string>>, id: string, start: string)
    requires forall d | d in byDate :: byDate[d] == IdsOf(With(ks, d))
    requires start != "" && IdsOf(With(ks, start)) == []
    ensures var m := byDate[start := [id]];
      forall d | d in m :: m[d] == IdsOf(With(ks + [(id, start)], d))
  {
    var m := byDate[start := [id]];
    forall d | d in m ensures m[d] == IdsOf(With(ks + [(id, start)], d)) {
      IdsWithSnoc(ks, (id, start), d);
    }
  }

  lemma FiledStep(ks: seq<Keyed>, st: St, id: string, start: string)
    requires Filed(ks, st)
    ensures Filed(ks + [(id, start)], File(st, id, start))
  {
    if start == "" {
      FiledUndated(ks, st, id);
    } else if start in st.byDate {
      FiledKnown(ks, st, id, start);
    } else {
      FiledNew(ks, st, id, start);
    }
  }

  /** The scenes other than `id` are kept as they were. */
  ghost predicate Keeps(st: St, st2: St, id: string) {
    forall x | x in st.scenes && x != id :: x in st2.scenes && st2.scenes[x] == st.scenes[x]
  }

  lemma DescribedKept(c: Setup, toSeconds: string -> Option<int>, ev: seq<Row>, st: St, row: Row, st2: St)
    requires |ev| == st.events && Described(c, toSeconds, ev, st) && Kept(c.s, row)
    requires Keeps(st, st2, NatToString(|ev| + 1))
    requires NatToString(|ev| + 1) in st2.scenes && FromRow(c, toSeconds, row, st2.scenes[NatToString(|ev| + 1)])
    ensures Described(c, toSeconds, ev + [row], st2)
  {
    var ev2 := ev + [row];
    forall j | 0 <= j < |ev2| && Kept(c.s, ev2[j])
      ensures NatToString(j + 1) in st2.scenes && FromRow(c, toSeconds, ev2[j], st2.scenes[NatToString(j + 1)])
    {
      if j < |ev| {
        assert ev2[j] == ev[j];
        DescribedOld(c, toSeconds, ev, st, st2, j);
      }
    }
  }

  lemma DescribedOld(c: Setup, toSeconds: string -> Option<int>, ev: seq<Row>, st: St, st2: St, j: nat)
    requires |ev| == st.events && Described(c, toSeconds, ev, st) && j < |ev| && Kept(c.s, ev[j])
    requires Keeps(st, st2, NatToString(|ev| + 1))
    ensures NatToString(j + 1) in st2.scenes && FromRow(c, toSeconds, ev[j], st2.scenes[NatToString(j + 1)])
  {
    NatToStringInjective(j + 1, |ev| + 1);
  }

  lemma ResolvedKept(c: Setup, ev: seq<Row>, st: St, row: Row, st2: St)
    requires |ev| == st.events && Resolved(c, ev, st) && Kept(c.s, row)
    requires Keeps(st, st2, NatToString(|ev| + 1)) && st2.scenes.Keys == st.scenes.Keys + {NatToString(|ev| + 1)}
    requires Resolves(c, row, st2.scenes[NatToString(|ev| + 1)], st2)
    requires Extends(st.lc, st2.lc) && Extends(st.cr, st2.cr) && Extends(st.it, st2.it)
    ensures Resolved(c, ev + [row], st2)
  {
    var ev2 := ev + [row];
    forall j | 0 <= j < |ev2| && Kept(c.s, ev2[j]) && NatToString(j + 1) in st2.scenes
      ensures Resolves(c, ev2[j], st2.scenes[NatToString(j + 1)], st2)
    {
      if j < |ev| {
        ResolvedOld(c, ev, st, st2, j);
        assert ev2[j] == ev[j];
      }
    }
  }

  lemma ResolvedOld(c: Setup, ev: seq<Row>, st: St, st2: St, j: nat)
    requires |ev| == st.events && Resolved(c, ev, st) && j < |ev| && Kept(c.s, ev[j])
    requires Keeps(st, st2, NatToString(|ev| + 1)) && NatToString(j + 1) in st2.scenes
    requires st2.scenes.Keys == st.scenes.Keys + {NatToString(|ev| + 1)}
    requires Extends(st.lc, st2.lc) && Extends(st.cr, st2.cr) && Extends(st.it, st2.it)
    ensures Resolves(c, ev[j], st2.scenes[NatToString(j + 1)], st2)
  {
    NatToStringInjective(j + 1, |ev| + 1);
    ResolvesExtends(c, ev[j], st.scenes[NatToString(j + 1)], st, st2);
  }

  lemma DescribedSkipped(c: Setup, toSeconds: string -> Option<int>, ev: seq<Row>, st: St, row: Row)
    requires Described(c, toSeconds, ev, st) && Resolved(c, ev, st) && !Kept(c.s, row)
    ensures Described(c, toSeconds, ev + [row], st.(events := st.events + 1))
    ensures Resolved(c, ev + [row], st.(events := st.events + 1))
  {
    var ev2 := ev + [row];
    assert forall j | 0 <= j < |ev| :: ev2[j] == ev[j];
  }

  /** What the row loop keeps, all together. */
  ghost predicate Invariant(c: Setup, toSeconds: string -> Option<int>, ev: seq<Row>, st: St) {
    && Counted(c.s, ev, st)
    && Filed(KeyedOf(c.s, ev), st)
    && Described(c, toSeconds, ev, st)
    && Resolved(c, ev, st)
    && TablesOk(st)
  }

  lemma InvariantKept(c: Setup, toSeconds: string -> Option<int>, ev: seq<Row>, st: St, row: Row, st2: St)
    requires Invariant(c, toSeconds, ev, st) && Kept(c.s, row) && KeptStep(c, toSeconds, st, row, st2)
    ensures Invariant(c, toSeconds, ev + [row], st2)
  {
    assert Counted(c.s, ev + [row], st2) by {
      CountedKept(c.s, ev, st, row, st2);
    }
    assert Described(c, toSeconds, ev + [row], st2) by {
      DescribedKept(c, toSeconds, ev, st, row, st2);
    }
    assert Resolved(c, ev + [row], st2) by {
      ResolvedKept(c, ev, st, row, st2);
    }
    assert Filed(KeyedOf(c.s, ev + [row]), st2) by {
      KeyedSnoc(c.s, ev, row);
      FiledStep(KeyedOf(c.s, ev), st, NatToString(st.events + 1), row[c.s.startLabel]);
    }
  }

  lemma InvariantSkipped(c: Setup, toSeconds: string -> Option<int>, ev: seq<Row>, st: St, row: Row)
    requires Invariant(c, toSeconds, ev, st) && !Kept(c.s, row)
    ensures Invariant(c, toSeconds, ev + [row], st.(events := st.events + 1))
  {
    CountedSkipped(c.s, ev, st, row);
    DescribedSkipped(c, toSeconds, ev, st, row);
    KeyedSnoc(c.s, ev, row);
    assert KeyedOf(c.s, ev + [row]) == KeyedOf(c.s, ev);
  }

  /** The row loop keeps its invariant from the first row to the last. */
  lemma {:induction false} ReadRowsInvariant(c: Setup, toSeconds: string -> Option<int>, rows: seq<Row>)
    requires ReadRows(c, toSeconds, rows).Ok?
    ensures Invariant(c, toSeconds, Events(c, rows), ReadRows(c, toSeconds, rows).value)
    decreases |rows|
  {
    if |rows| > 0 {
      var init := rows[..|rows| - 1];
      var row := rows[|rows| - 1];
      ReadRowsInvariant(c, toSeconds, init);
      EventsSnoc(c, init, row);
      assert rows == init + [row];
      var ev := Events(c, init);
      var st := ReadRows(c, toSeconds, init).value;
      ReadRowStep(c, toSeconds, st, row);
      var st2 := ReadRow(c, toSeconds, st, row).value;
      assert ReadRows(c, toSeconds, rows).value == st2;
      if !IsEvent(c, row) {
        assert ev + [] == ev;
      } else if Kept(c.s, row) {
        InvariantKept(c, toSeconds, ev, st, row, st2);
      } else {
        InvariantSkipped(c, toSeconds, ev, st, row);
      }
    } else {
      assert FirstDates([]) == [];
    }
  }

  // ---------------------------------------------------------------------
  // The project

  const ChapterId := "1"

  /** The scene ids of the given start texts' groups, one group after the other. */
  function Flatten(byDate: map<string, seq<string>>, ds: seq<string>): seq<string>
    decreases |ds|
  {
    if |ds| == 0 then [] else (if ds[0] in byDate then byDate[ds[0]] else []) + Flatten(byDate, ds[1..])
  }

  /** The locations or items of a table, each with its title. */
  function Elements(t: Table): map<string, WorldElement> {
    map id | id in t.titles :: NewWorldElement.(title := Some(t.titles[id]))
  }

  /** The characters of a table, each with its title. */
  function Characters(t: Table): map<string, Character> {
    map id | id in t.titles :: NewCharacter.(title := Some(t.titles[id]))
  }

  /** One chapter holding every scene: the undated ones, then those of
      each start text in ascending order. */
  function Assemble(st: St): Project {
    var chapter := NewChapter.(title := Some(ChapterTitle),
                               srtScenes := st.undated + Flatten(st.byDate, SortDistinct(st.dates)));
    NewProject.(
      chapters := map[ChapterId := chapter],
      srtChapters := [ChapterId],
      scenes := st.scenes,
      locations := Elements(st.lc),
      srtLocations := st.lc.srt,
      items := Elements(st.it),
      srtItems := st.it.srt,
      characters := Characters(st.cr),
      srtCharacters := st.cr.srt)
  }

  /** The reader, from the header and the rows on. A file without a header
      line has no field names, and testing them raises a TypeError, which the
      reader reports as unparsable. */
  function Read(s: Settings, fieldnames: Option<seq<string>>, rows: seq<Row>,
                toSeconds: string -> Option<int>): (r: Result<Project>)
    ensures fieldnames.None? ==> r == Err(CannotParse)
    ensures fieldnames.Some? ==>
      var labels := Required(Detect(s, fieldnames.value).s);
      && ((r.Err? && r.error.MissingLabel?) <==> !(forall k | 0 <= k < |labels| :: labels[k] in fieldnames.value))
      && (r.Err? && r.error.MissingLabel? ==>
            && r.error.name in labels && r.error.name !in fieldnames.value
            && forall k | 0 <= k < IndexOf(labels, r.error.name) :: labels[k] in fieldnames.value)
    ensures r.Err? ==> r.error.MissingLabel? || RowError(r.error)
    ensures r.Ok? ==>
      && r.value.srtChapters == [ChapterId]
      && r.value.chapters.Keys == {ChapterId}
      && r.value.chapters[ChapterId].title == Some(ChapterTitle)
  {
    if fieldnames.None? then Err(CannotParse)
    else
      var c := Detect(s, fieldnames.value);
      var _ :- CheckLabels(Required(c.s), fieldnames.value);
      var st :- ReadRows(c, toSeconds, rows);
      Ok(Assemble(st))
  }

  // ---------------------------------------------------------------------
  // What a successful read gives

  lemma {:induction false} FlattenGroups(ks: seq<Keyed>, st: St, ds: seq<string>)
    requires Filed(ks, st) && forall i | 0 <= i < |ds| :: ds[i] in st.byDate
    ensures Flatten(st.byDate, ds) == IdsOf(Groups(ks, ds))
    decreases |ds|
  {
    if |ds| > 0 {
      FlattenGroups(ks, st, ds[1..]);
      IdsOfConcat(With(ks, ds[0]), Groups(ks, ds[1..]));
    }
  }

  /** The chapter of a filed state lists the scene ids in the order `ByDate` gives. */
  lemma AssembleOrder(ks: seq<Keyed>, st: St)
    requires Filed(ks, st)
    ensures Assemble(st).chapters[ChapterId].srtScenes == IdsOf(ByDate(ks))
  {
    var ds := SortDistinct(st.dates);
    assert forall i | 0 <= i < |ds| :: ds[i] in st.byDate by {
      assert forall i | 0 <= i < |ds| :: ds[i] in Elems(ds);
    }
    FlattenGroups(ks, st, ds);
    IdsOfConcat(With(ks, ""), Groups(ks, ds));
  }

  /** The events of the rows, given the header they were read with. */
  function EventsOf(s: Settings, fieldnames: Option<seq<string>>, rows: seq<Row>): seq<Row> {
    if fieldnames.None? then [] else Events(Detect(s, fieldnames.value), rows)
  }

  /** The kept events' scene ids with their start cells. */
  function KeyedRead(s: Settings, fieldnames: Option<seq<string>>, rows: seq<Row>): seq<Keyed> {
    if fieldnames.None? then [] else KeyedOf(Detect(s, fieldnames.value).s, EventsOf(s, fieldnames, rows))
  }

  lemma ReadInvariant(s: Settings, fieldnames: Option<seq<string>>, rows: seq<Row>, toSeconds: string -> Option<int>)
    requires Read(s, fieldnames, rows, toSeconds).Ok?
    ensures fieldnames.Some?
    ensures var c := Detect(s, fieldnames.value);
      && ReadRows(c, toSeconds, rows).Ok?
      && Read(s, fieldnames, rows, toSeconds).value == Assemble(ReadRows(c, toSeconds, rows).value)
      && Invariant(c, toSeconds, Events(c, rows), ReadRows(c, toSeconds, rows).value)
  {
    ReadRowsInvariant(Detect(s, fieldnames.value), toSeconds, rows);
  }

  /** The single chapter lists the scenes sorted by start cell, undated
      first, keeping the table order among equal starts: a stable sort. */
  lemma ReadOrder(s: Settings, fieldnames: Option<seq<string>>, rows: seq<Row>, toSeconds: string -> Option<int>)
    requires Read(s, fieldnames, rows, toSeconds).Ok?
    ensures var ks := KeyedRead(s, fieldnames, rows);
      && Read(s, fieldnames, rows, toSeconds).value.chapters[ChapterId].srtScenes == IdsOf(ByDate(ks))
      && SortedByStart(ByDate(ks))
      && multiset(ByDate(ks)) == multiset(ks)
      && forall d :: With(ByDate(ks), d) == With(ks, d)
  {
    ReadInvariant(s, fieldnames, rows, toSeconds);
    var ks := KeyedRead(s, fieldnames, rows);
    AssembleOrder(ks, ReadRows(Detect(s, fieldnames.value), toSeconds, rows).value);
    ByDateSorted(ks);
    ByDatePermutes(ks);
    forall d ensures With(ByDate(ks), d) == With(ks, d) {
      ByDateStable(ks, d);
    }
  }

  /** The scene ids are among the first event numbers. */
  lemma {:induction false} KeyedWithin(s: Settings, ev: seq<Row>)
    ensures Elems(IdsOf(KeyedOf(s, ev))) <= Elems(DenseIds(|ev|))
    decreases |ev|
  {
    if |ev| > 0 {
      var init := ev[..|ev| - 1];
      var row := ev[|ev| - 1];
      KeyedWithin(s, init);
      KeyedSnoc(s, init, row);
      assert ev == init + [row];
      var add := if Kept(s, row) then [(NatToString(|ev|), Cell(row, s.startLabel))] else [];
      IdsOfConcat(KeyedOf(s, init), add);
      ElemsConcat(IdsOf(KeyedOf(s, init)), IdsOf(add));
      DenseIdsNext(|init|);
      ElemsConcat(DenseIds(|init|), [NatToString(|ev|)]);
    }
  }

  /** Event `j + 1` becomes scene "j+1" exactly when it is kept. */
  lemma {:induction false} KeyedKept(s: Settings, ev: seq<Row>)
    ensures forall j | 0 <= j < |ev| :: NatToString(j + 1) in Elems(IdsOf(KeyedOf(s, ev))) <==> Kept(s, ev[j])
    decreases |ev|
  {
    if |ev| > 0 {
      var init := ev[..|ev| - 1];
      var row := ev[|ev| - 1];
      var last := NatToString(|ev|);
      var before := Elems(IdsOf(KeyedOf(s, init)));
      var after := Elems(IdsOf(KeyedOf(s, ev)));
      assert after == before + (if Kept(s, row) then {last} else {}) by {
        KeyedSnoc(s, init, row);
        assert ev == init + [row];
        var add := if Kept(s, row) then [(last, Cell(row, s.startLabel))] else [];
        IdsOfConcat(KeyedOf(s, init), add);
        ElemsConcat(IdsOf(KeyedOf(s, init)), IdsOf(add));
        assert IdsOf(add) == if Kept(s, row) then [last] else [];
        assert Elems(IdsOf(add)) == if Kept(s, row) then {last} else {};
      }
      assert last !in before by {
        KeyedWithin(s, init);
        DenseIdsIndex(|init|, |init|, last);
      }
      KeyedKept(s, init);
      forall j | 0 <= j < |ev|
        ensures NatToString(j + 1) in after <==> Kept(s, ev[j])
      {
        if j < |init| {
          assert ev[j] == init[j];
          NatToStringInjective(j + 1, |ev|);
        }
      }
    }
  }

  /** Every event counts; event `j + 1` becomes scene "j+1" exactly when it
      is kept, and that scene takes title, notes flag, status and date from
      its row. */
  lemma ReadScenes(s: Settings, fieldnames: Option<seq<string>>, rows: seq<Row>, toSeconds: string -> Option<int>)
    requires Read(s, fieldnames, rows, toSeconds).Ok?
    ensures var ev := EventsOf(s, fieldnames, rows);
      var c := Detect(s, fieldnames.value);
      var p := Read(s, fieldnames, rows, toSeconds).value;
      && p.scenes.Keys <= Elems(DenseIds(|ev|))
      && (forall j | 0 <= j < |ev| :: NatToString(j + 1) in p.scenes <==> Kept(c.s, ev[j]))
      && (forall j | 0 <= j < |ev| && Kept(c.s, ev[j]) :: FromRow(c, toSeconds, ev[j], p.scenes[NatToString(j + 1)]))
  {
    ReadInvariant(s, fieldnames, rows, toSeconds);
    var c := Detect(s, fieldnames.value);
    KeyedWithin(c.s, Events(c, rows));
    KeyedKept(c.s, Events(c, rows));
  }

  /** Locations or items numbered "1", "2", … in list order, each with its
      own non-empty title. */
  ghost predicate WorldOk(m: map<string, WorldElement>, srt: seq<string>) {
    && srt == DenseIds(|srt|)
    && m.Keys == Elems(srt)
    && (forall id | id in m :: m[id].title.Some? && m[id].title.value != "")
    && (forall a, b | a in m && b in m && a != b :: m[a].title != m[b].title)
  }

  /** The same for characters. */
  ghost predicate CastOk(m: map<string, Character>, srt: seq<string>) {
    && srt == DenseIds(|srt|)
    && m.Keys == Elems(srt)
    && (forall id | id in m :: m[id].title.Some? && m[id].title.value != "")
    && (forall a, b | a in m && b in m && a != b :: m[a].title != m[b].title)
  }

  lemma ElementsOk(t: Table)
    requires TableOk(t)
    ensures WorldOk(Elements(t), t.srt) && CastOk(Characters(t), t.srt)
  {
    forall id | id in t.titles ensures t.titles[id] != "" {
      assert t.titles[id] in t.byTitle;
    }
  }

  /** Locations, characters and items are numbered in order of first
      mention and have distinct non-empty titles. */
  lemma ReadWorld(s: Settings, fieldnames: Option<seq<string>>, rows: seq<Row>, toSeconds: string -> Option<int>)
    requires Read(s, fieldnames, rows, toSeconds).Ok?
    ensures var p := Read(s, fieldnames, rows, toSeconds).value;
      && WorldOk(p.locations, p.srtLocations)
      && WorldOk(p.items, p.srtItems)
      && CastOk(p.characters, p.srtCharacters)
  {
    ReadInvariant(s, fieldnames, rows, toSeconds);
    var st := ReadRows(Detect(s, fieldnames.value), toSeconds, rows).value;
    ElementsOk(st.lc);
    ElementsOk(st.it);
    ElementsOk(st.cr);
  }

  /** The ids name the given titles among the project's locations or items. */
  ghost predicate PlacesNamed(ids: Option<seq<string>>, titles: seq<string>, m: map<string, WorldElement>) {
    ids.Some? ==>
      && |ids.value| == |titles|
      && forall k | 0 <= k < |titles| :: ids.value[k] in m && m[ids.value[k]].title == Some(titles[k])
  }

  /** The character ids of a scene among the project's characters: the
      viewpoint character first when the row names one, otherwise the
      titles of the character column. */
  ghost predicate CastNamed(c: Setup, row: Row, ids: Option<seq<string>>, m: map<string, Character>) {
    && (ids.Some? ==> forall k | 0 <= k < |ids.value| :: ids.value[k] in m)
    && (Cell(row, c.s.viewpointLabel) != "" ==>
          ids.Some? && |ids.value| > 0 && m[ids.value[0]].title == Some(row[c.s.viewpointLabel]))
    && (Cell(row, c.s.viewpointLabel) == "" && ids.Some? ==>
          && |ids.value| == |Split(Cell(row, c.s.characterLabel), c.delimiter)|
          && forall k | 0 <= k < |ids.value| ::
               m[ids.value[k]].title == Some(Split(Cell(row, c.s.characterLabel), c.delimiter)[k]))
  }

  lemma ResolvesInProject(c: Setup, row: Row, sc: Scene, st: St)
    requires Resolves(c, row, sc, st)
    ensures var p := Assemble(st);
      && PlacesNamed(sc.locations, Split(Cell(row, c.s.locationLabel), c.delimiter), p.locations)
      && PlacesNamed(sc.items, Split(Cell(row, c.s.itemLabel), c.delimiter), p.items)
      && CastNamed(c, row, sc.characters, p.characters)
  {
  }

  /** Each kept event's scene refers to locations, characters and items
      that exist and carry the titles its row names. */
  lemma ReadLinks(s: Settings, fieldnames: Option<seq<string>>, rows: seq<Row>, toSeconds: string -> Option<int>)
    requires Read(s, fieldnames, rows, toSeconds).Ok?
    ensures var ev := EventsOf(s, fieldnames, rows);
      var c := Detect(s, fieldnames.value);
      var p := Read(s, fieldnames, rows, toSeconds).value;
      forall j | 0 <= j < |ev| && Kept(c.s, ev[j]) ::
        && NatToString(j + 1) in p.scenes
        && PlacesNamed(p.scenes[NatToString(j + 1)].locations, Split(Cell(ev[j], c.s.locationLabel), c.delimiter), p.locations)
        && PlacesNamed(p.scenes[NatToString(j + 1)].items, Split(Cell(ev[j], c.s.itemLabel), c.delimiter), p.items)
        && CastNamed(c, ev[j], p.scenes[NatToString(j + 1)].characters, p.characters)
  {
    ReadInvariant(s, fieldnames, rows, toSeconds);
    var c := Detect(s, fieldnames.value);
    var ev := Events(c, rows);
    var st := ReadRows(c, toSeconds, rows).value;
    forall j | 0 <= j < |ev| && Kept(c.s, ev[j])
      ensures NatToString(j + 1) in st.scenes
      ensures Resolves(c, ev[j], st.scenes[NatToString(j + 1)], st)
    {
    }
    forall j | 0 <= j < |ev| && Kept(c.s, ev[j]) {
      ResolvesInProject(c, ev[j], st.scenes[NatToString(j + 1)], st);
    }
  }

  /** A cell without the delimiter is a single title. */
  lemma SplitSingle(x: string, sep: char)
    requires sep !in x
    ensures Split(x, sep) == [x]
  {
    var parts := Split(x, sep);
    assert |parts| == 1;
    assert JoinWith(parts, [sep]) == parts[0];
  }

  /** A row whose one character is also its viewpoint character: as written
      the lookup fails, so the whole read does; as intended the scene lists
      that character once. */
  lemma ViewpointAlsoListed(c: Setup, row: Row, t: Table, x: string)
    requires TableOk(t) && x != "" && c.delimiter !in x
    requires c.s.characterLabel in row && row[c.s.characterLabel] == x
    requires c.s.viewpointLabel in row && row[c.s.viewpointLabel] == x
    ensures c.s.code == AsWritten ==> CharacterIds(c, row, t) == Err(CannotParse)
    ensures c.s.code == Corrected ==>
      && CharacterIds(c, row, t).Ok?
      && var (ids, t2) := CharacterIds(c, row, t).value;
         ids.Some? && |ids.value| == 1 && ids.value[0] in t2.titles && t2.titles[ids.value[0]] == x
  {
    var (crs, t1) := CellIds(c, row, c.s.characterLabel, t);
    var (vp, t2) := Viewpoint(row, c.s.viewpointLabel, t1);
    var id := SameCharacter(c, row, t, x);
    CsvTimeline3.PutViewpointAlone(c.s.code, id);
  }

  /** A character cell holding one title gives that title's id. */
  lemma SingleCharacter(c: Setup, row: Row, t: Table, x: string) returns (id: string)
    requires TableOk(t) && x != "" && c.delimiter !in x
    requires c.s.characterLabel in row && row[c.s.characterLabel] == x
    ensures var (crs, t1) := CellIds(c, row, c.s.characterLabel, t);
      && crs == Some([id]) && TableOk(t1)
      && x in t1.byTitle && t1.byTitle[x] == id
  {
    SplitSingle(x, c.delimiter);
    var (crs, t1) := CellIds(c, row, c.s.characterLabel, t);
    GetIdsOk([x], t);
    id := crs.value[0];
    assert crs.value == [id];
  }

  /** A viewpoint title already in the table is looked up without change. */
  lemma ViewpointKnown(row: Row, column: string, t: Table, x: string)
    requires column in row && row[column] == x && x in t.byTitle
    ensures Viewpoint(row, column, t) == (Some(t.byTitle[x]), t)
  {
    GetIdsKnown([x], t);
  }

  /** The character column and the viewpoint column name the same character. */
  lemma SameCharacter(c: Setup, row: Row, t: Table, x: string) returns (id: string)
    requires TableOk(t) && x != "" && c.delimiter !in x
    requires c.s.characterLabel in row && row[c.s.characterLabel] == x
    requires c.s.viewpointLabel in row && row[c.s.viewpointLabel] == x
    ensures var (crs, t1) := CellIds(c, row, c.s.characterLabel, t);
      && crs == Some([id])
      && var (vp, t2) := Viewpoint(row, c.s.viewpointLabel, t1);
         vp == Some(id) && id in t2.titles && t2.titles[id] == x
  {
    id := SingleCharacter(c, row, t, x);
    var t1 := CellIds(c, row, c.s.characterLabel, t).1;
    ViewpointKnown(row, c.s.viewpointLabel, t1, x);
  }
}
