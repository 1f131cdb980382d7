/** The Aeon Timeline 3 JSON reader: the items of `data.items.byId` are
    classified into scenes (events), chapters (narrative containers),
    characters and locations, each kind numbered by its own counter; then
    the narrative tree is walked two levels deep to order the chapters and
    fill them with scenes; a project without chapters gets a dummy one.

    The reader has three defects. They are modelled as written, and the
    `Code` switch selects the corrected behaviour instead:
    - a location's label and summary are written to the location whose id
      is the character counter's last value;
    - a scene directly under a top-level container is looked up in the
      chapter table, which always fails;
    - invalid JSON is meant to be reported, but the handler names a string
      instead of an exception class, which is itself an error. */
module JsonTimeline3 {
  import opened Wrappers
  import opened Seqs
  import opened Strings
  import opened Ids
  import opened Novel
  import Aeon3Fop

  const TypeEvent := "defaultEvent"
  const TypeCharacter := "defaultPerson"
  const TypeLocation := "defaultLocation"
  const TypeNarrative := "defaultNarrative"

  /** Seconds from 0001-01-01 to 0100-01-01: 99 years of 365 days and the
      24 leap days of the years 4, 8, …, 96. Earlier dates get no date. */
  const DateLimit: int := (99 * 365 + 24) * 86400

  const UnboundLocal := Uncaught("UnboundLocalError")
  const TypeError := Uncaught("TypeError")

  /** A member of a JSON object as the reader sees it: missing, `null`, or a value. */
  datatype Field<T> = Absent | Null | Value(v: T)

  /** An entry of `data.items.byId`: its `type`, `label` (here `title`),
      `summary`, and the `startDate` member holding the
      `timestamp` in seconds since 0001-01-01. */
  datatype Item = Item(kind: Field<string>, title: Field<string>, summary: Field<string>,
                       startDate: Field<Field<int>>)

  /** A node of `data.narrative`: an item uid and the nodes under it. */
  datatype Node = Node(id: string, children: seq<Node>)

  /** The parsed document: the `byId` object in its key order, and the
      children of the narrative root. */
  datatype Doc = Doc(byId: seq<(string, Item)>, narrative: seq<Node>)

  /** uid to id, per kind. */
  datatype Guids = Guids(sc: map<string, string>, ch: map<string, string>,
                         cr: map<string, string>, lc: map<string, string>)

  /** The running counters. */
  datatype Tally = Tally(events: nat, chapters: nat, characters: nat, locations: nat)

  datatype Reading = Reading(p: Project, g: Guids, n: Tally)

  const Start := Reading(NewProject, Guids(map[], map[], map[], map[]), Tally(0, 0, 0, 0))

  /** The calendar conversion of a timestamp: the date and the time half of
      the ISO text of `datetime.min + timedelta(seconds=t)`. */
  type IsoOf = int -> (string, string)

  // ---------------------------------------------------------------------
  // Reading one member

  /** A text member: a missing key is a KeyError, `null` is `None`. */
  function Text(f: Field<string>): (r: Result<Option<string>>)
    ensures r.Err? <==> f.Absent?
    ensures r.Err? ==> r.error == KeyError
    ensures r.Ok? ==> r.value == TextOf(f)
  {
    match f
    case Absent => Err(KeyError)
    case Null => Ok(None)
    case Value(s) => Ok(Some(s))
  }

  /** What a present text member holds. */
  function TextOf(f: Field<string>): Option<string> {
    if f.Value? then Some(f.v) else None
  }

  /** `startDate.timestamp`: a missing key is a KeyError, a `null` start
      cannot be subscripted, a `null` timestamp is `None`. */
  function Timestamp(f: Field<Field<int>>): (r: Result<Option<int>>)
    ensures r.Err? <==> f.Absent? || f.Null? || f.v.Absent?
    ensures r.Ok? ==> (r.value.Some? <==> f.v.Value?)
    ensures r.Ok? && r.value.Some? ==> r.value.value == f.v.v
  {
    match f
    case Absent => Err(KeyError)
    case Null => Err(TypeError)
    case Value(Absent) => Err(KeyError)
    case Value(Null) => Ok(None)
    case Value(Value(t)) => Ok(Some(t))
  }

  /** The item has a start timestamp in the displayable range. */
  predicate Dated(item: Item) {
    item.startDate.Value? && item.startDate.v.Value? && item.startDate.v.v >= DateLimit
  }

  // ---------------------------------------------------------------------
  // Classifying the items

  function AddEvent(st: Reading, uid: string, item: Item, iso: IsoOf): (r: Result<Reading>)
  {
    var title :- Text(item.title);
    var desc :- Text(item.summary);
    var stamp :- Timestamp(item.startDate);
    var id := NatToString(st.n.events + 1);
    var plain := NewScene.(status := Some(1), title := title, desc := desc);
    var sc := if stamp.Some? && stamp.value >= DateLimit
      then plain.(date := Some(iso(stamp.value).0), time := Some(iso(stamp.value).1))
      else plain;
    Ok(st.(p := st.p.(scenes := st.p.scenes[id := sc]),
           g := st.g.(sc := st.g.sc[uid := id]),
           n := st.n.(events := st.n.events + 1)))
  }

  function AddNarrative(st: Reading, uid: string, item: Item): (r: Result<Reading>)
  {
    var title :- Text(item.title);
    var desc :- Text(item.summary);
    var id := NatToString(st.n.chapters + 1);
    Ok(st.(p := st.p.(chapters := st.p.chapters[id := NewChapter.(title := title, desc := desc)]),
           g := st.g.(ch := st.g.ch[uid := id]),
           n := st.n.(chapters := st.n.chapters + 1)))
  }

  function AddCharacter(st: Reading, uid: string, item: Item): (r: Result<Reading>)
  {
    var title :- Text(item.title);
    var desc :- Text(item.summary);
    var id := NatToString(st.n.characters + 1);
    Ok(st.(p := st.p.(characters := st.p.characters[id := NewCharacter.(title := title, desc := desc)],
                      srtCharacters := st.p.srtCharacters + [id]),
           g := st.g.(cr := st.g.cr[uid := id]),
           n := st.n.(characters := st.n.characters + 1)))
  }

  /** The location branch as written: a new blank location is stored, and
      the label and summary go to the location named by the character
      counter (unset before the first character, and possibly not a
      location id at all). */
  function AddLocation(st: Reading, uid: string, item: Item): (r: Result<Reading>)
  {
    var id := NatToString(st.n.locations + 1);
    var blank := st.p.locations[id := NewWorldElement];
    var title :- Text(item.title);
    if st.n.characters == 0 then Err(UnboundLocal)
    else
      var target := NatToString(st.n.characters);
      if target !in blank then Err(KeyError)
      else
        var titled := blank[target := blank[target].(title := title)];
        var desc :- Text(item.summary);
        Ok(st.(p := st.p.(locations := titled[target := titled[target].(desc := desc)],
                          srtLocations := st.p.srtLocations + [id]),
               g := st.g.(lc := st.g.lc[uid := id]),
               n := st.n.(locations := st.n.locations + 1)))
  }

  /** The location branch as intended: label and summary go to the new location. */
  function AddLocationIntended(st: Reading, uid: string, item: Item): (r: Result<Reading>)
  {
    var title :- Text(item.title);
    var desc :- Text(item.summary);
    var id := NatToString(st.n.locations + 1);
    Ok(st.(p := st.p.(locations := st.p.locations[id := NewWorldElement.(title := title, desc := desc)],
                      srtLocations := st.p.srtLocations + [id]),
           g := st.g.(lc := st.g.lc[uid := id]),
           n := st.n.(locations := st.n.locations + 1)))
  }

  /** One entry of `byId`: a missing type is a KeyError; other types,
      `null` among them, are skipped (items included: that branch is
      disabled in the original). */
  function AddItem(st: Reading, entry: (string, Item), code: Code, iso: IsoOf): (r: Result<Reading>)
  {
    var (uid, item) := entry;
    match item.kind
    case Absent => Err(KeyError)
    case Null => Ok(st)
    case Value(k) =>
      if k == TypeEvent then AddEvent(st, uid, item, iso)
      else if k == TypeNarrative then AddNarrative(st, uid, item)
      else if k == TypeCharacter then AddCharacter(st, uid, item)
      else if k == TypeLocation then
        (if code == AsWritten then AddLocation(st, uid, item) else AddLocationIntended(st, uid, item))
      else Ok(st)
  }

  /** The classification loop over `byId` in its key order. */
  function Classify(byId: seq<(string, Item)>, code: Code, iso: IsoOf): (r: Result<Reading>)
    decreases |byId|
  {
    if |byId| == 0 then Ok(Start)
    else
      var st :- Classify(byId[..|byId| - 1], code, iso);
      AddItem(st, byId[|byId| - 1], code, iso)
  }

  // ---------------------------------------------------------------------
  // What the classification produces

  /** The entries of one type, in `byId` order. */
  function Kind(byId: seq<(string, Item)>, t: string): (r: seq<(string, Item)>)
    ensures |r| <= |byId|
    decreases |byId|
  {
    if |byId| == 0 then []
    else
      var last := byId[|byId| - 1];
      Kind(byId[..|byId| - 1], t) + (if last.1.kind == Value(t) then [last] else [])
  }

  lemma KindSnoc(byId: seq<(string, Item)>, x: (string, Item), t: string)
    ensures x.1.kind == Value(t) ==> Kind(byId + [x], t) == Kind(byId, t) + [x]
    ensures x.1.kind != Value(t) ==> Kind(byId + [x], t) == Kind(byId, t)
  {
    assert (byId + [x])[..|byId|] == byId;
    assert Kind(byId, t) + [] == Kind(byId, t);
  }

  /** The uids of some entries. */
  function Uids(es: seq<(string, Item)>): (r: seq<string>)
    ensures |r| == |es| && forall k | 0 <= k < |es| :: r[k] == es[k].0
  {
    seq(|es|, k requires 0 <= k < |es| => es[k].0)
  }

  /** The uid table of a kind whose entries are `es`: entry k gets id k+1,
      and a later entry with the same uid overrides an earlier one. */
  function IdsByUid(es: seq<(string, Item)>): (r: map<string, string>)
    decreases |es|
  {
    if |es| == 0 then map[]
    else IdsByUid(es[..|es| - 1])[es[|es| - 1].0 := NatToString(|es|)]
  }

  /** Entity k is stored under `ids[k]` and is built from entry k, and
      the keys are exactly `ids`. */
  ghost predicate FiledOn<E>(ents: map<string, E>, ids: seq<string>, es: seq<(string, Item)>,
                             fits: (E, Item) -> bool) {
    && |ids| == |es|
    && ents.Keys == Elems(ids)
    && forall k | 0 <= k < |es| :: ids[k] in ents && fits(ents[ids[k]], es[k].1)
  }

  /** Entities numbered 1, 2, … with entity k built from entry k-1. */
  ghost predicate Filed<E>(ents: map<string, E>, es: seq<(string, Item)>, fits: (E, Item) -> bool) {
    FiledOn(ents, DenseIds(|es|), es, fits)
  }

  /** A scene made from an event: status 1 ("Outline"), title and
      description from label and summary, date and time only for a
      timestamp from year 100 on, and nothing else set. */
  predicate EventFits(iso: IsoOf, sc: Scene, item: Item) {
    && sc.status == Some(1)
    && sc.title == TextOf(item.title)
    && sc.desc == TextOf(item.summary)
    && (Dated(item) ==>
          sc.date == Some(iso(item.startDate.v.v).0) && sc.time == Some(iso(item.startDate.v.v).1))
    && (!Dated(item) ==> sc.date == None && sc.time == None)
    && sc.(status := None, title := None, desc := None, date := None, time := None) == NewScene
  }

  function EventFitsWith(iso: IsoOf): (Scene, Item) -> bool {
    (sc, it) => EventFits(iso, sc, it)
  }

  predicate ChapterFits(ch: Chapter, item: Item) {
    && ch.title == TextOf(item.title)
    && ch.desc == TextOf(item.summary)
    && ch.(title := None, desc := None) == NewChapter
  }

  predicate CharacterFits(cr: Character, item: Item) {
    && cr.title == TextOf(item.title)
    && cr.desc == TextOf(item.summary)
    && cr.(title := None, desc := None) == NewCharacter
  }

  predicate LocationFits(lc: WorldElement, item: Item) {
    && lc.title == TextOf(item.title)
    && lc.desc == TextOf(item.summary)
    && lc.(title := None, desc := None) == NewWorldElement
  }

  /** Everything the classification does not touch is as in a new project. */
  predicate OnlyEntities(p: Project) {
    p.(scenes := map[], chapters := map[], characters := map[], srtCharacters := [],
       locations := map[], srtLocations := []) == NewProject
  }

  /** Scene k+1 is made from event k, and the event uids point at the scenes. */
  ghost predicate EventsRead(byId: seq<(string, Item)>, st: Reading, iso: IsoOf) {
    var ev := Kind(byId, TypeEvent);
    && st.n.events == |ev|
    && Filed(st.p.scenes, ev, EventFitsWith(iso))
    && st.g.sc == IdsByUid(ev)
  }

  /** Chapter k+1 is made from narrative container k, and the container
      uids point at the chapters. */
  ghost predicate ChaptersRead(byId: seq<(string, Item)>, st: Reading) {
    var na := Kind(byId, TypeNarrative);
    && st.n.chapters == |na|
    && Filed(st.p.chapters, na, ChapterFits)
    && st.g.ch == IdsByUid(na)
  }

  /** Character k+1 is made from person k, in that order. */
  ghost predicate CharactersRead(byId: seq<(string, Item)>, st: Reading) {
    var cr := Kind(byId, TypeCharacter);
    && st.n.characters == |cr|
    && Filed(st.p.characters, cr, CharacterFits)
    && st.p.srtCharacters == DenseIds(|cr|)
    && st.g.cr == IdsByUid(cr)
  }

  /** The locations are numbered like the location entries; only the
      corrected reading also makes location k+1 from entry k. */
  ghost predicate LocationsRead(byId: seq<(string, Item)>, st: Reading, code: Code) {
    var lc := Kind(byId, TypeLocation);
    && st.n.locations == |lc|
    && st.p.locations.Keys == Elems(DenseIds(|lc|))
    && st.p.srtLocations == DenseIds(|lc|)
    && (code.Corrected? ==> Filed(st.p.locations, lc, LocationFits))
    && st.g.lc == IdsByUid(lc)
  }

  /** The state after classifying `byId`: each kind numbered densely in
      `byId` order by its own counter, each entity made from its entry, the
      uid tables pointing at the ids, and no items. */
  ghost predicate Classified(byId: seq<(string, Item)>, st: Reading, code: Code, iso: IsoOf) {
    && EventsRead(byId, st, iso)
    && ChaptersRead(byId, st)
    && CharactersRead(byId, st)
    && LocationsRead(byId, st, code)
    && OnlyEntities(st.p)
  }

  lemma FiledStep<E>(ents: map<string, E>, es: seq<(string, Item)>, fits: (E, Item) -> bool,
                     e: E, x: (string, Item))
    requires Filed(ents, es, fits) && fits(e, x.1)
    ensures NatToString(|es| + 1) !in ents
    ensures Filed(ents[NatToString(|es| + 1) := e], es + [x], fits)
  {
    DenseStep(|es|, ents.Keys, DenseIds(|es|));
    FiledOnStep(ents, DenseIds(|es|), es, fits, e, x, NatToString(|es| + 1));
  }

  lemma FiledOnStep<E>(ents: map<string, E>, ids: seq<string>, es: seq<(string, Item)>,
                       fits: (E, Item) -> bool, e: E, x: (string, Item), id: string)
    requires FiledOn(ents, ids, es, fits) && fits(e, x.1) && id !in ents
    ensures FiledOn(ents[id := e], ids + [id], es + [x], fits)
  {
    ElemsConcat(ids, [id]);
    assert Elems([id]) == {id};
    var ents2 := ents[id := e];
    forall k | 0 <= k < |es| + 1
      ensures (ids + [id])[k] in ents2 && fits(ents2[(ids + [id])[k]], (es + [x])[k].1)
    {
      if k < |es| {
        assert (ids + [id])[k] == ids[k] && ids[k] in ents;
      }
    }
  }

  lemma DenseStep(n: nat, keys: set<string>, srt: seq<string>)
    requires keys == Elems(DenseIds(n)) && srt == DenseIds(n)
    ensures keys + {NatToString(n + 1)} == Elems(DenseIds(n + 1))
    ensures srt + [NatToString(n + 1)] == DenseIds(n + 1)
    ensures NatToString(n + 1) !in keys
  {
    DenseIdsNext(n);
    ElemsConcat(DenseIds(n), [NatToString(n + 1)]);
    assert Elems([NatToString(n + 1)]) == {NatToString(n + 1)};
  }

  lemma IdsByUidSnoc(es: seq<(string, Item)>, x: (string, Item))
    ensures IdsByUid(es + [x]) == IdsByUid(es)[x.0 := NatToString(|es| + 1)]
  {
    assert (es + [x])[..|es|] == es;
  }

  /** An entry of another type leaves a kind's table alone. */
  lemma EventsFrame(st: Reading, x: (string, Item), code: Code, iso: IsoOf)
    requires AddItem(st, x, code, iso).Ok? && x.1.kind != Value(TypeEvent)
    ensures var r := AddItem(st, x, code, iso).value;
      r.n.events == st.n.events && r.p.scenes == st.p.scenes && r.g.sc == st.g.sc
  {
    var r := AddItem(st, x, code, iso).value;
    if x.1.kind == Value(TypeNarrative) {
      assert r == AddNarrative(st, x.0, x.1).value;
    } else if x.1.kind == Value(TypeCharacter) {
      assert r == AddCharacter(st, x.0, x.1).value;
    }
  }

  lemma ChaptersFrame(st: Reading, x: (string, Item), code: Code, iso: IsoOf)
    requires AddItem(st, x, code, iso).Ok? && x.1.kind != Value(TypeNarrative)
    ensures var r := AddItem(st, x, code, iso).value;
      r.n.chapters == st.n.chapters && r.p.chapters == st.p.chapters && r.g.ch == st.g.ch
  {
    var r := AddItem(st, x, code, iso).value;
    if x.1.kind == Value(TypeEvent) {
      assert r == AddEvent(st, x.0, x.1, iso).value;
    } else if x.1.kind == Value(TypeCharacter) {
      assert r == AddCharacter(st, x.0, x.1).value;
    }
  }

  lemma CharactersFrame(st: Reading, x: (string, Item), code: Code, iso: IsoOf)
    requires AddItem(st, x, code, iso).Ok? && x.1.kind != Value(TypeCharacter)
    ensures var r := AddItem(st, x, code, iso).value;
      && r.n.characters == st.n.characters && r.p.characters == st.p.characters
      && r.p.srtCharacters == st.p.srtCharacters && r.g.cr == st.g.cr
  {
    var r := AddItem(st, x, code, iso).value;
    if x.1.kind == Value(TypeEvent) {
      assert r == AddEvent(st, x.0, x.1, iso).value;
    } else if x.1.kind == Value(TypeNarrative) {
      assert r == AddNarrative(st, x.0, x.1).value;
    }
  }

  lemma LocationsFrame(st: Reading, x: (string, Item), code: Code, iso: IsoOf)
    requires AddItem(st, x, code, iso).Ok? && x.1.kind != Value(TypeLocation)
    ensures var r := AddItem(st, x, code, iso).value;
      && r.n.locations == st.n.locations && r.p.locations == st.p.locations
      && r.p.srtLocations == st.p.srtLocations && r.g.lc == st.g.lc
  {
    var r := AddItem(st, x, code, iso).value;
    if x.1.kind == Value(TypeEvent) {
      assert r == AddEvent(st, x.0, x.1, iso).value;
    } else if x.1.kind == Value(TypeNarrative) {
      assert r == AddNarrative(st, x.0, x.1).value;
    } else if x.1.kind == Value(TypeCharacter) {
      assert r == AddCharacter(st, x.0, x.1).value;
    }
  }

  lemma OnlyEntitiesFrame(st: Reading, x: (string, Item), code: Code, iso: IsoOf)
    requires AddItem(st, x, code, iso).Ok? && OnlyEntities(st.p)
    ensures OnlyEntities(AddItem(st, x, code, iso).value.p)
  {
    var (uid, item) := x;
    var r := AddItem(st, x, code, iso).value;
    if item.kind == Value(TypeEvent) {
      assert r == AddEvent(st, uid, item, iso).value;
      assert r.p == st.p.(scenes := r.p.scenes);
    } else if item.kind == Value(TypeNarrative) {
      assert r == AddNarrative(st, uid, item).value;
      assert r.p == st.p.(chapters := r.p.chapters);
    } else if item.kind == Value(TypeCharacter) {
      assert r == AddCharacter(st, uid, item).value;
      assert r.p == st.p.(characters := r.p.characters, srtCharacters := r.p.srtCharacters);
    } else if item.kind == Value(TypeLocation) {
      assert r.p == st.p.(locations := r.p.locations, srtLocations := r.p.srtLocations);
    }
  }

  /** The scene an event adds. */
  lemma AddEventFits(st: Reading, uid: string, item: Item, iso: IsoOf)
    requires AddEvent(st, uid, item, iso).Ok?
    ensures var r := AddEvent(st, uid, item, iso).value;
      var id := NatToString(st.n.events + 1);
      && id in r.p.scenes
      && r.p.scenes == st.p.scenes[id := r.p.scenes[id]]
      && EventFitsWith(iso)(r.p.scenes[id], item)
  {
    var r := AddEvent(st, uid, item, iso).value;
    var id := NatToString(st.n.events + 1);
    assert EventFits(iso, r.p.scenes[id], item);
  }

  lemma EventsStep(pre: seq<(string, Item)>, x: (string, Item), st: Reading, code: Code, iso: IsoOf)
    requires EventsRead(pre, st, iso) && AddItem(st, x, code, iso).Ok?
    ensures EventsRead(pre + [x], AddItem(st, x, code, iso).value, iso)
  {
    var ev := Kind(pre, TypeEvent);
    KindSnoc(pre, x, TypeEvent);
    if x.1.kind != Value(TypeEvent) {
      EventsFrame(st, x, code, iso);
    } else {
      var r := AddEvent(st, x.0, x.1, iso).value;
      AddEventFits(st, x.0, x.1, iso);
      FiledStep(st.p.scenes, ev, EventFitsWith(iso), r.p.scenes[NatToString(|ev| + 1)], x);
      IdsByUidSnoc(ev, x);
    }
  }

  lemma ChaptersStep(pre: seq<(string, Item)>, x: (string, Item), st: Reading, code: Code, iso: IsoOf)
    requires ChaptersRead(pre, st) && AddItem(st, x, code, iso).Ok?
    ensures ChaptersRead(pre + [x], AddItem(st, x, code, iso).value)
  {
    var na := Kind(pre, TypeNarrative);
    KindSnoc(pre, x, TypeNarrative);
    if x.1.kind != Value(TypeNarrative) {
      ChaptersFrame(st, x, code, iso);
    } else {
      var r := AddNarrative(st, x.0, x.1).value;
      FiledStep(st.p.chapters, na, ChapterFits, r.p.chapters[NatToString(|na| + 1)], x);
      IdsByUidSnoc(na, x);
    }
  }

  lemma CharactersStep(pre: seq<(string, Item)>, x: (string, Item), st: Reading, code: Code, iso: IsoOf)
    requires CharactersRead(pre, st) && AddItem(st, x, code, iso).Ok?
    ensures CharactersRead(pre + [x], AddItem(st, x, code, iso).value)
  {
    var cr := Kind(pre, TypeCharacter);
    KindSnoc(pre, x, TypeCharacter);
    if x.1.kind != Value(TypeCharacter) {
      CharactersFrame(st, x, code, iso);
    } else {
      var r := AddCharacter(st, x.0, x.1).value;
      FiledStep(st.p.characters, cr, CharacterFits, r.p.characters[NatToString(|cr| + 1)], x);
      DenseStep(|cr|, st.p.characters.Keys, st.p.srtCharacters);
      IdsByUidSnoc(cr, x);
    }
  }

  lemma LocationsStep(pre: seq<(string, Item)>, x: (string, Item), st: Reading, code: Code, iso: IsoOf)
    requires LocationsRead(pre, st, code) && AddItem(st, x, code, iso).Ok?
    ensures LocationsRead(pre + [x], AddItem(st, x, code, iso).value, code)
  {
    var lc := Kind(pre, TypeLocation);
    KindSnoc(pre, x, TypeLocation);
    if x.1.kind != Value(TypeLocation) {
      LocationsFrame(st, x, code, iso);
    } else {
      var r := AddItem(st, x, code, iso).value;
      var id := NatToString(|lc| + 1);
      DenseStep(|lc|, st.p.locations.Keys, st.p.srtLocations);
      if code.Corrected? {
        assert r == AddLocationIntended(st, x.0, x.1).value;
        FiledStep(st.p.locations, lc, LocationFits, r.p.locations[id], x);
      } else {
        assert r == AddLocation(st, x.0, x.1).value;
        assert r.p.locations.Keys == st.p.locations.Keys + {id};
      }
      IdsByUidSnoc(lc, x);
    }
  }

  /** Classification numbers each kind densely in `byId` order by its own
      counter, builds each entity from its entry, and creates no items. */
  lemma {:induction false} ClassifyOk(byId: seq<(string, Item)>, code: Code, iso: IsoOf)
    requires Classify(byId, code, iso).Ok?
    ensures Classified(byId, Classify(byId, code, iso).value, code, iso)
    decreases |byId|
  {
    if |byId| == 0 {
      assert DenseIds(0) == [];
    } else {
      var pre := byId[..|byId| - 1];
      var x := byId[|byId| - 1];
      var st := Classify(pre, code, iso).value;
      ClassifyOk(pre, code, iso);
      assert byId == pre + [x];
      EventsStep(pre, x, st, code, iso);
      ChaptersStep(pre, x, st, code, iso);
      CharactersStep(pre, x, st, code, iso);
      LocationsStep(pre, x, st, code, iso);
      OnlyEntitiesFrame(st, x, code, iso);
    }
  }

  // ---------------------------------------------------------------------
  // Walking the narrative tree

  /** The chapter table and chapter order the walk fills in. */
  datatype Outline = Outline(chapters: map<string, Chapter>, srt: seq<string>)

  /** A dictionary lookup: a missing key is a KeyError. */
  function Lookup(m: map<string, string>, k: string): (r: Result<string>)
    ensures r.Ok? <==> k in m
    ensures r.Ok? ==> r.value == m[k]
  {
    if k in m then Ok(m[k]) else Err(KeyError)
  }

  function SetLevel(o: Outline, chId: string, level: int): Result<Outline> {
    if chId in o.chapters then Ok(o.(chapters := o.chapters[chId := o.chapters[chId].(chLevel := Some(level))]))
    else Err(KeyError)
  }

  function AppendScene(o: Outline, chId: string, scId: string): Result<Outline> {
    if chId in o.chapters
    then Ok(o.(chapters := o.chapters[chId := o.chapters[chId].(srtScenes := o.chapters[chId].srtScenes + [scId])]))
    else Err(KeyError)
  }

  /** The third level: each event under a child container joins its
      chapter, which becomes a chapter of scenes (level 0). */
  function CollectScenes(chId: string, ns: seq<Node>, g: Guids, o: Outline): Result<Outline>
    decreases |ns|
  {
    if |ns| == 0 then Ok(o)
    else if ns[0].id in g.sc then
      var o1 :- AppendScene(o, chId, g.sc[ns[0].id]);
      var o2 :- SetLevel(o1, chId, 0);
      CollectScenes(chId, ns[1..], g, o2)
    else CollectScenes(chId, ns[1..], g, o)
  }

  /** The second level under the top-level node `top`. A container is
      ordered, makes the top-level chapter a part (level 1), and collects
      its scenes. An event is looked up among the container uids as
      written, which always fails, and is filed under the top-level chapter
      as intended. */
  function Child(top: string, n1: Node, g: Guids, o: Outline, code: Code): Result<Outline> {
    if n1.id in g.ch then
      var chId := g.ch[n1.id];
      var o1 := o.(srt := o.srt + [chId]);
      var parent :- Lookup(g.ch, top);
      var o2 :- SetLevel(o1, parent, 1);
      CollectScenes(chId, n1.children, g, o2)
    else if n1.id in g.sc then
      if code.AsWritten? then Err(Lookup(g.ch, n1.id).error)
      else
        var parent :- Lookup(g.ch, top);
        var o1 :- AppendScene(o, parent, g.sc[n1.id]);
        SetLevel(o1, parent, 0)
    else Ok(o)
  }

  function Children(top: string, ns: seq<Node>, g: Guids, o: Outline, code: Code): Result<Outline>
    decreases |ns|
  {
    if |ns| == 0 then Ok(o)
    else
      var o1 :- Child(top, ns[0], g, o, code);
      Children(top, ns[1..], g, o1, code)
  }

  /** The first level: a container is ordered, then its children are walked. */
  function Top(n0: Node, g: Guids, o: Outline, code: Code): Result<Outline> {
    var o1 := if n0.id in g.ch then o.(srt := o.srt + [g.ch[n0.id]]) else o;
    Children(n0.id, n0.children, g, o1, code)
  }

  function Walk(ns: seq<Node>, g: Guids, o: Outline, code: Code): Result<Outline>
    decreases |ns|
  {
    if |ns| == 0 then Ok(o)
    else
      var o1 :- Top(ns[0], g, o, code);
      Walk(ns[1..], g, o1, code)
  }

  const DummyChapter := NewChapter.(title := Some("Chapter 1"), chType := Some(0))

  /** Without any chapter, chapter "1" is created and ordered. */
  function Dummy(o: Outline): Outline {
    if o.chapters == map[] then Outline(map["1" := DummyChapter], o.srt + ["1"]) else o
  }

  // ---------------------------------------------------------------------
  // What the walk produces

  /** The chapter of a uid, if it is a container. */
  function ChapterOf(u: string, gch: map<string, string>): seq<string> {
    if u in gch then [gch[u]] else []
  }

  /** The chapters of the containers among `ns`, in order. */
  function Containers(ns: seq<Node>, gch: map<string, string>): seq<string>
    decreases |ns|
  {
    if |ns| == 0 then [] else ChapterOf(ns[0].id, gch) + Containers(ns[1..], gch)
  }

  /** The chapter order the tree describes: each top-level container
      followed by its container children. */
  function ChapterOrder(ns: seq<Node>, gch: map<string, string>): seq<string>
    decreases |ns|
  {
    if |ns| == 0 then []
    else ChapterOf(ns[0].id, gch) + Containers(ns[0].children, gch) + ChapterOrder(ns[1..], gch)
  }

  /** The scenes of the events among `ns`, in order. */
  function SceneIds(ns: seq<Node>, gsc: map<string, string>): seq<string>
    decreases |ns|
  {
    if |ns| == 0 then []
    else (if ns[0].id in gsc then [gsc[ns[0].id]] else []) + SceneIds(ns[1..], gsc)
  }

  /** A child container's chapter after its children are seen, one child at a time. */
  function ChildChapter(ch: Chapter, ns: seq<Node>, gsc: map<string, string>): Chapter
    decreases |ns|
  {
    if |ns| == 0 then ch
    else if ns[0].id in gsc then
      ChildChapter(ch.(srtScenes := ch.srtScenes + [gsc[ns[0].id]], chLevel := Some(0)), ns[1..], gsc)
    else ChildChapter(ch, ns[1..], gsc)
  }

  /** A top-level container's chapter after one child is seen: a container
      child makes it a part, an event child (only reached as intended)
      joins it and makes it a chapter of scenes. */
  function TopStep(ch: Chapter, n1: Node, g: Guids): Chapter {
    if n1.id in g.ch then ch.(chLevel := Some(1))
    else if n1.id in g.sc then ch.(srtScenes := ch.srtScenes + [g.sc[n1.id]], chLevel := Some(0))
    else ch
  }

  function TopChapter(ch: Chapter, ns: seq<Node>, g: Guids): Chapter
    decreases |ns|
  {
    if |ns| == 0 then ch else TopChapter(TopStep(ch, ns[0], g), ns[1..], g)
  }

  /** Every container uid has its chapter in the table. */
  ghost predicate Covered(g: Guids, chapters: map<string, Chapter>) {
    forall u | u in g.ch :: g.ch[u] in chapters
  }

  /** What a second-level node needs for the walk not to fail: a container
      needs a container above it, and an event needs, as written, not to be
      there at all, and as intended a container above it. */
  predicate ChildFits(top: string, n1: Node, g: Guids, code: Code) {
    && (n1.id in g.ch ==> top in g.ch)
    && (n1.id !in g.ch && n1.id in g.sc ==> code.Corrected? && top in g.ch)
  }

  /** The events directly under a top-level node. */
  function DirectScenes(ns: seq<Node>, g: Guids): seq<string>
    decreases |ns|
  {
    if |ns| == 0 then []
    else (if ns[0].id !in g.ch && ns[0].id in g.sc then [g.sc[ns[0].id]] else []) + DirectScenes(ns[1..], g)
  }

  /** A child container collects the scenes of its event children in tree
      order, and is a chapter of scenes exactly when there is one. */
  lemma {:induction false} ChildChapterScenes(ch: Chapter, ns: seq<Node>, gsc: map<string, string>)
    ensures var ids := SceneIds(ns, gsc);
      ChildChapter(ch, ns, gsc) == ch.(srtScenes := ch.srtScenes + ids, chLevel := if |ids| > 0 then Some(0) else ch.chLevel)
    decreases |ns|
  {
    if |ns| > 0 {
      var rest := SceneIds(ns[1..], gsc);
      if ns[0].id in gsc {
        var ch1 := ch.(srtScenes := ch.srtScenes + [gsc[ns[0].id]], chLevel := Some(0));
        ChildChapterScenes(ch1, ns[1..], gsc);
        assert ch1.srtScenes + rest == ch.srtScenes + ([gsc[ns[0].id]] + rest);
      } else {
        ChildChapterScenes(ch, ns[1..], gsc);
        assert [] + rest == rest;
      }
    }
  }

  /** A top-level container keeps its own fields, gathers the events
      directly under it, and is a part when its last container-or-event
      child is a container. */
  lemma {:induction false} TopChapterScenes(ch: Chapter, ns: seq<Node>, g: Guids)
    ensures TopChapter(ch, ns, g).srtScenes == ch.srtScenes + DirectScenes(ns, g)
    ensures TopChapter(ch, ns, g).(srtScenes := ch.srtScenes, chLevel := ch.chLevel) == ch
    decreases |ns|
  {
    if |ns| > 0 {
      var ch1 := TopStep(ch, ns[0], g);
      TopChapterScenes(ch1, ns[1..], g);
      var rest := DirectScenes(ns[1..], g);
      if ns[0].id !in g.ch && ns[0].id in g.sc {
        assert ch1.srtScenes + rest == ch.srtScenes + ([g.sc[ns[0].id]] + rest);
      } else {
        assert [] + rest == rest;
      }
    }
  }

  /** Without events directly under it, a top-level container is a part
      exactly when it has a container child. */
  lemma {:induction false} TopChapterParts(ch: Chapter, ns: seq<Node>, g: Guids)
    requires forall k | 0 <= k < |ns| :: ns[k].id in g.ch || ns[k].id !in g.sc
    ensures TopChapter(ch, ns, g) == ch.(chLevel := if |Containers(ns, g.ch)| > 0 then Some(1) else ch.chLevel)
    decreases |ns|
  {
    if |ns| > 0 {
      TopChapterParts(TopStep(ch, ns[0], g), ns[1..], g);
    }
  }

  /** Collecting the scenes of a container changes its chapter only. */
  lemma {:induction false} CollectScenesOk(chId: string, ns: seq<Node>, g: Guids, o: Outline)
    requires chId in o.chapters
    ensures CollectScenes(chId, ns, g, o) == Ok(o.(chapters := o.chapters[chId := ChildChapter(o.chapters[chId], ns, g.sc)]))
    decreases |ns|
  {
    if |ns| > 0 {
      if ns[0].id in g.sc {
        var ch := o.chapters[chId];
        var ch1 := ch.(srtScenes := ch.srtScenes + [g.sc[ns[0].id]], chLevel := Some(0));
        var o1 := o.(chapters := o.chapters[chId := ch.(srtScenes := ch1.srtScenes)]);
        var o2 := o.(chapters := o.chapters[chId := ch1]);
        assert AppendScene(o, chId, g.sc[ns[0].id]) == Ok(o1);
        assert o1.chapters[chId := o1.chapters[chId].(chLevel := Some(0))] == o2.chapters;
        assert SetLevel(o1, chId, 0) == Ok(o2);
        CollectScenesOk(chId, ns[1..], g, o2);
        assert o2.chapters[chId := ChildChapter(ch1, ns[1..], g.sc)] == o.chapters[chId := ChildChapter(ch, ns, g.sc)];
      } else {
        CollectScenesOk(chId, ns[1..], g, o);
      }
    } else {
      assert o.chapters[chId := o.chapters[chId]] == o.chapters;
    }
  }

  /** A second-level node succeeds exactly when it fits, orders its
      chapter if it is a container, and keeps the chapter ids. */
  lemma ChildOk(top: string, n1: Node, g: Guids, o: Outline, code: Code)
    requires Covered(g, o.chapters)
    ensures Child(top, n1, g, o, code).Ok? <==> ChildFits(top, n1, g, code)
    ensures Child(top, n1, g, o, code).Ok? ==>
      var r := Child(top, n1, g, o, code).value;
      r.srt == o.srt + ChapterOf(n1.id, g.ch) && r.chapters.Keys == o.chapters.Keys
  {
    if n1.id in g.ch && top in g.ch {
      var o1 := o.(srt := o.srt + [g.ch[n1.id]]);
      var o2 := SetLevel(o1, g.ch[top], 1).value;
      CollectScenesOk(g.ch[n1.id], n1.children, g, o2);
    }
  }

  /** What one second-level node does to chapter `c`. */
  lemma ChildAt(top: string, n1: Node, g: Guids, o: Outline, code: Code, c: string)
    requires Covered(g, o.chapters) && Child(top, n1, g, o, code).Ok? && c in o.chapters
    requires n1.id in g.ch && top in g.ch ==> g.ch[top] != g.ch[n1.id]
    ensures var r := Child(top, n1, g, o, code).value;
      c in r.chapters &&
      r.chapters[c] ==
        if c in ChapterOf(top, g.ch) then TopStep(o.chapters[c], n1, g)
        else if c in ChapterOf(n1.id, g.ch) then ChildChapter(o.chapters[c], n1.children, g.sc)
        else o.chapters[c]
  {
    ChildOk(top, n1, g, o, code);
    if n1.id in g.ch {
      var o1 := o.(srt := o.srt + [g.ch[n1.id]]);
      var o2 := SetLevel(o1, g.ch[top], 1).value;
      CollectScenesOk(g.ch[n1.id], n1.children, g, o2);
    }
  }

  /** The chapter of a container child is among the containers' chapters. */
  lemma {:induction false} ContainersHas(ns: seq<Node>, gch: map<string, string>, j: nat)
    requires j < |ns| && ns[j].id in gch
    ensures gch[ns[j].id] in Containers(ns, gch)
    decreases |ns|
  {
    if j > 0 {
      ContainersHas(ns[1..], gch, j - 1);
    }
  }

  /** Peeling the first node off a repeat-free chapter list of a top-level node. */
  lemma PeelDistinct(top: string, ns: seq<Node>, g: Guids)
    requires |ns| > 0 && Distinct(ChapterOf(top, g.ch) + Containers(ns, g.ch))
    ensures Distinct(ChapterOf(top, g.ch) + Containers(ns[1..], g.ch))
    ensures forall x | x in ChapterOf(ns[0].id, g.ch) :: x !in ChapterOf(top, g.ch) + Containers(ns[1..], g.ch)
    ensures ns[0].id in g.ch && top in g.ch ==> g.ch[top] != g.ch[ns[0].id]
  {
    var head := ChapterOf(top, g.ch);
    var first := ChapterOf(ns[0].id, g.ch);
    var rest := Containers(ns[1..], g.ch);
    DistinctConcat(head, first + rest);
    DistinctConcat(first, rest);
    DistinctConcat(head, rest);
    if ns[0].id in g.ch && top in g.ch {
      assert g.ch[top] in head && g.ch[ns[0].id] in first;
    }
  }

  lemma ChildrenUnfold(top: string, ns: seq<Node>, g: Guids, o: Outline, code: Code)
    requires |ns| > 0 && Children(top, ns, g, o, code).Ok?
    ensures Child(top, ns[0], g, o, code).Ok?
    ensures Children(top, ns, g, o, code) == Children(top, ns[1..], g, Child(top, ns[0], g, o, code).value, code)
  {
  }

  /** The second level succeeds exactly when every node fits, and appends
      the container children's chapters to the order. */
  lemma {:induction false} ChildrenOk(top: string, ns: seq<Node>, g: Guids, o: Outline, code: Code)
    requires Covered(g, o.chapters)
    ensures Children(top, ns, g, o, code).Ok? <==> forall j | 0 <= j < |ns| :: ChildFits(top, ns[j], g, code)
    ensures Children(top, ns, g, o, code).Ok? ==>
      var r := Children(top, ns, g, o, code).value;
      r.srt == o.srt + Containers(ns, g.ch) && r.chapters.Keys == o.chapters.Keys
    decreases |ns|
  {
    if |ns| > 0 {
      ChildOk(top, ns[0], g, o, code);
      assert forall j | 1 <= j < |ns| :: ns[j] == ns[1..][j - 1];
      if Child(top, ns[0], g, o, code).Ok? {
        var o1 := Child(top, ns[0], g, o, code).value;
        ChildrenOk(top, ns[1..], g, o1, code);
        assert o.srt + ChapterOf(ns[0].id, g.ch) + Containers(ns[1..], g.ch) == o.srt + Containers(ns, g.ch);
      }
    } else {
      assert o.srt + [] == o.srt;
    }
  }

  /** A top-level container's chapter sees its children one at a time. */
  lemma {:induction false} ChildrenTop(top: string, ns: seq<Node>, g: Guids, o: Outline, code: Code)
    requires Covered(g, o.chapters) && Children(top, ns, g, o, code).Ok?
    requires Distinct(ChapterOf(top, g.ch) + Containers(ns, g.ch))
    requires top in g.ch
    ensures var r := Children(top, ns, g, o, code).value;
      g.ch[top] in r.chapters && r.chapters[g.ch[top]] == TopChapter(o.chapters[g.ch[top]], ns, g)
    decreases |ns|
  {
    if |ns| > 0 {
      var c0 := g.ch[top];
      assert c0 in ChapterOf(top, g.ch);
      PeelDistinct(top, ns, g);
      ChildrenUnfold(top, ns, g, o, code);
      ChildOk(top, ns[0], g, o, code);
      ChildAt(top, ns[0], g, o, code, c0);
      var o1 := Child(top, ns[0], g, o, code).value;
      ChildrenTop(top, ns[1..], g, o1, code);
    }
  }

  /** Chapters outside the list are left alone by the second level. */
  lemma {:induction false} ChildrenFrame(top: string, ns: seq<Node>, g: Guids, o: Outline, code: Code, c: string)
    requires Covered(g, o.chapters) && Children(top, ns, g, o, code).Ok?
    requires Distinct(ChapterOf(top, g.ch) + Containers(ns, g.ch))
    requires c in o.chapters && c !in ChapterOf(top, g.ch) + Containers(ns, g.ch)
    ensures var r := Children(top, ns, g, o, code).value;
      c in r.chapters && r.chapters[c] == o.chapters[c]
    decreases |ns|
  {
    if |ns| > 0 {
      PeelDistinct(top, ns, g);
      ChildrenUnfold(top, ns, g, o, code);
      ChildOk(top, ns[0], g, o, code);
      ChildAt(top, ns[0], g, o, code, c);
      var o1 := Child(top, ns[0], g, o, code).value;
      ChildrenFrame(top, ns[1..], g, o1, code, c);
    }
  }

  /** A container child's chapter collects its scenes. */
  lemma {:induction false} ChildrenUnder(top: string, ns: seq<Node>, g: Guids, o: Outline, code: Code, j: nat)
    requires Covered(g, o.chapters) && Children(top, ns, g, o, code).Ok?
    requires Distinct(ChapterOf(top, g.ch) + Containers(ns, g.ch))
    requires j < |ns| && ns[j].id in g.ch
    ensures var r := Children(top, ns, g, o, code).value;
      var c := g.ch[ns[j].id];
      c in r.chapters && r.chapters[c] == ChildChapter(o.chapters[c], ns[j].children, g.sc)
    decreases |ns|
  {
    var c := g.ch[ns[j].id];
    PeelDistinct(top, ns, g);
    ChildrenUnfold(top, ns, g, o, code);
    ChildOk(top, ns[0], g, o, code);
    var o1 := Child(top, ns[0], g, o, code).value;
    if j == 0 {
      ChildAt(top, ns[0], g, o, code, c);
      ChildrenFrame(top, ns[1..], g, o1, code, c);
    } else {
      assert ns[1..][j - 1] == ns[j];
      ContainersHas(ns[1..], g.ch, j - 1);
      DistinctConcat(ChapterOf(top, g.ch), Containers(ns[1..], g.ch));
      assert c !in ChapterOf(top, g.ch) && c !in ChapterOf(ns[0].id, g.ch);
      ChildAt(top, ns[0], g, o, code, c);
      ChildrenUnder(top, ns[1..], g, o1, code, j - 1);
    }
  }

  /** Every second-level node of the tree fits. */
  predicate WalkFits(ns: seq<Node>, g: Guids, code: Code) {
    forall i, j | 0 <= i < |ns| && 0 <= j < |ns[i].children| :: ChildFits(ns[i].id, ns[i].children[j], g, code)
  }

  /** The chapters one top-level node puts in the order. */
  function Chunk(n0: Node, gch: map<string, string>): seq<string> {
    ChapterOf(n0.id, gch) + Containers(n0.children, gch)
  }

  lemma TopOk(n0: Node, g: Guids, o: Outline, code: Code)
    requires Covered(g, o.chapters)
    ensures Top(n0, g, o, code).Ok? <==> forall j | 0 <= j < |n0.children| :: ChildFits(n0.id, n0.children[j], g, code)
    ensures Top(n0, g, o, code).Ok? ==>
      var r := Top(n0, g, o, code).value;
      r.srt == o.srt + Chunk(n0, g.ch) && r.chapters.Keys == o.chapters.Keys
  {
    var o1 := if n0.id in g.ch then o.(srt := o.srt + [g.ch[n0.id]]) else o;
    assert o1.srt == o.srt + ChapterOf(n0.id, g.ch);
    ChildrenOk(n0.id, n0.children, g, o1, code);
  }

  /** What one top-level node does to chapter `c`. */
  lemma TopAt(n0: Node, g: Guids, o: Outline, code: Code, c: string)
    requires Covered(g, o.chapters) && Top(n0, g, o, code).Ok? && Distinct(Chunk(n0, g.ch))
    requires c in o.chapters
    ensures var r := Top(n0, g, o, code).value;
      && c in r.chapters
      && (c in ChapterOf(n0.id, g.ch) ==> r.chapters[c] == TopChapter(o.chapters[c], n0.children, g))
      && (c !in Chunk(n0, g.ch) ==> r.chapters[c] == o.chapters[c])
  {
    var o1 := if n0.id in g.ch then o.(srt := o.srt + [g.ch[n0.id]]) else o;
    if c in ChapterOf(n0.id, g.ch) {
      ChildrenTop(n0.id, n0.children, g, o1, code);
    } else if c !in Chunk(n0, g.ch) {
      ChildrenFrame(n0.id, n0.children, g, o1, code, c);
    } else {
      ChildrenOk(n0.id, n0.children, g, o1, code);
    }
  }

  lemma TopUnder(n0: Node, g: Guids, o: Outline, code: Code, j: nat)
    requires Covered(g, o.chapters) && Top(n0, g, o, code).Ok? && Distinct(Chunk(n0, g.ch))
    requires j < |n0.children| && n0.children[j].id in g.ch
    ensures var r := Top(n0, g, o, code).value;
      var c := g.ch[n0.children[j].id];
      c in r.chapters && r.chapters[c] == ChildChapter(o.chapters[c], n0.children[j].children, g.sc)
  {
    var o1 := if n0.id in g.ch then o.(srt := o.srt + [g.ch[n0.id]]) else o;
    ChildrenUnder(n0.id, n0.children, g, o1, code, j);
  }

  lemma WalkUnfold(ns: seq<Node>, g: Guids, o: Outline, code: Code)
    requires |ns| > 0 && Walk(ns, g, o, code).Ok?
    ensures Top(ns[0], g, o, code).Ok?
    ensures Walk(ns, g, o, code) == Walk(ns[1..], g, Top(ns[0], g, o, code).value, code)
  {
  }

  /** The walk succeeds exactly when every second-level node fits, orders
      each top-level container followed by its container children, and
      keeps the chapter ids. */
  lemma {:induction false} WalkOk(ns: seq<Node>, g: Guids, o: Outline, code: Code)
    requires Covered(g, o.chapters)
    ensures Walk(ns, g, o, code).Ok? <==> WalkFits(ns, g, code)
    ensures Walk(ns, g, o, code).Ok? ==>
      var r := Walk(ns, g, o, code).value;
      r.srt == o.srt + ChapterOrder(ns, g.ch) && r.chapters.Keys == o.chapters.Keys
    decreases |ns|
  {
    if |ns| > 0 {
      TopOk(ns[0], g, o, code);
      assert forall i | 1 <= i < |ns| :: ns[i] == ns[1..][i - 1];
      if Top(ns[0], g, o, code).Ok? {
        var o1 := Top(ns[0], g, o, code).value;
        WalkOk(ns[1..], g, o1, code);
        assert o.srt + Chunk(ns[0], g.ch) + ChapterOrder(ns[1..], g.ch) == o.srt + ChapterOrder(ns, g.ch);
      }
    } else {
      assert o.srt + [] == o.srt;
    }
  }

  /** Peeling the first top-level node off a repeat-free chapter order. */
  lemma PeelOrder(ns: seq<Node>, gch: map<string, string>)
    requires |ns| > 0 && Distinct(ChapterOrder(ns, gch))
    ensures Distinct(Chunk(ns[0], gch)) && Distinct(ChapterOrder(ns[1..], gch))
    ensures forall x | x in Chunk(ns[0], gch) :: x !in ChapterOrder(ns[1..], gch)
  {
    assert ChapterOrder(ns, gch) == Chunk(ns[0], gch) + ChapterOrder(ns[1..], gch);
    DistinctConcat(Chunk(ns[0], gch), ChapterOrder(ns[1..], gch));
  }

  lemma {:induction false} OrderHasTop(ns: seq<Node>, gch: map<string, string>, i: nat)
    requires i < |ns| && ns[i].id in gch
    ensures gch[ns[i].id] in ChapterOrder(ns, gch)
    decreases |ns|
  {
    if i > 0 {
      OrderHasTop(ns[1..], gch, i - 1);
    }
  }

  lemma {:induction false} OrderHasChild(ns: seq<Node>, gch: map<string, string>, i: nat, j: nat)
    requires i < |ns| && j < |ns[i].children| && ns[i].children[j].id in gch
    ensures gch[ns[i].children[j].id] in ChapterOrder(ns, gch)
    decreases |ns|
  {
    if i > 0 {
      OrderHasChild(ns[1..], gch, i - 1, j);
    } else {
      ContainersHas(ns[0].children, gch, j);
    }
  }

  /** Chapters outside the order are left alone by the walk. */
  lemma {:induction false} WalkFrame(ns: seq<Node>, g: Guids, o: Outline, code: Code, c: string)
    requires Covered(g, o.chapters) && Walk(ns, g, o, code).Ok? && Distinct(ChapterOrder(ns, g.ch))
    requires c in o.chapters && c !in ChapterOrder(ns, g.ch)
    ensures var r := Walk(ns, g, o, code).value;
      c in r.chapters && r.chapters[c] == o.chapters[c]
    decreases |ns|
  {
    if |ns| > 0 {
      WalkUnfold(ns, g, o, code);
      PeelOrder(ns, g.ch);
      assert ChapterOrder(ns, g.ch) == Chunk(ns[0], g.ch) + ChapterOrder(ns[1..], g.ch);
      TopOk(ns[0], g, o, code);
      TopAt(ns[0], g, o, code, c);
      WalkFrame(ns[1..], g, Top(ns[0], g, o, code).value, code, c);
    }
  }

  /** A top-level container's chapter sees its children one at a time. */
  lemma {:induction false} WalkTops(ns: seq<Node>, g: Guids, o: Outline, code: Code, i: nat)
    requires Covered(g, o.chapters) && Walk(ns, g, o, code).Ok? && Distinct(ChapterOrder(ns, g.ch))
    requires i < |ns| && ns[i].id in g.ch
    ensures var r := Walk(ns, g, o, code).value;
      var c := g.ch[ns[i].id];
      c in r.chapters && r.chapters[c] == TopChapter(o.chapters[c], ns[i].children, g)
    decreases |ns|
  {
    var c := g.ch[ns[i].id];
    WalkUnfold(ns, g, o, code);
    PeelOrder(ns, g.ch);
    TopOk(ns[0], g, o, code);
    var o1 := Top(ns[0], g, o, code).value;
    if i == 0 {
      assert c in ChapterOf(ns[0].id, g.ch) && c in Chunk(ns[0], g.ch);
      TopAt(ns[0], g, o, code, c);
      WalkFrame(ns[1..], g, o1, code, c);
    } else {
      assert ns[1..][i - 1] == ns[i];
      OrderHasTop(ns[1..], g.ch, i - 1);
      TopAt(ns[0], g, o, code, c);
      WalkTops(ns[1..], g, o1, code, i - 1);
    }
  }

  /** A container child's chapter collects its scenes. */
  lemma {:induction false} WalkUnder(ns: seq<Node>, g: Guids, o: Outline, code: Code, i: nat, j: nat)
    requires Covered(g, o.chapters) && Walk(ns, g, o, code).Ok? && Distinct(ChapterOrder(ns, g.ch))
    requires i < |ns| && j < |ns[i].children| && ns[i].children[j].id in g.ch
    ensures var r := Walk(ns, g, o, code).value;
      var c := g.ch[ns[i].children[j].id];
      c in r.chapters && r.chapters[c] == ChildChapter(o.chapters[c], ns[i].children[j].children, g.sc)
    decreases |ns|
  {
    var c := g.ch[ns[i].children[j].id];
    WalkUnfold(ns, g, o, code);
    PeelOrder(ns, g.ch);
    TopOk(ns[0], g, o, code);
    var o1 := Top(ns[0], g, o, code).value;
    if i == 0 {
      ContainersHas(ns[0].children, g.ch, j);
      assert c in Chunk(ns[0], g.ch);
      TopUnder(ns[0], g, o, code, j);
      WalkFrame(ns[1..], g, o1, code, c);
    } else {
      assert ns[1..][i - 1] == ns[i];
      OrderHasChild(ns[1..], g.ch, i - 1, j);
      TopAt(ns[0], g, o, code, c);
      WalkUnder(ns[1..], g, o1, code, i - 1, j);
    }
  }

  /** `b` has the chapters of `a`, differing at most in level and scene list. */
  ghost predicate Reshaped(a: map<string, Chapter>, b: map<string, Chapter>) {
    a.Keys == b.Keys && forall c | c in a :: b[c].(chLevel := a[c].chLevel, srtScenes := a[c].srtScenes) == a[c]
  }

  lemma ReshapedTrans(a: map<string, Chapter>, b: map<string, Chapter>, c: map<string, Chapter>)
    requires Reshaped(a, b) && Reshaped(b, c)
    ensures Reshaped(a, c)
  {
    forall k | k in a ensures c[k].(chLevel := a[k].chLevel, srtScenes := a[k].srtScenes) == a[k] {
      assert c[k].(chLevel := b[k].chLevel, srtScenes := b[k].srtScenes) == b[k];
    }
  }

  lemma {:induction false} CollectScenesReshapes(chId: string, ns: seq<Node>, g: Guids, o: Outline)
    requires CollectScenes(chId, ns, g, o).Ok?
    ensures var r := CollectScenes(chId, ns, g, o).value;
      Reshaped(o.chapters, r.chapters) && r.srt == o.srt
    decreases |ns|
  {
    if |ns| > 0 && ns[0].id in g.sc {
      var o1 := AppendScene(o, chId, g.sc[ns[0].id]).value;
      var o2 := SetLevel(o1, chId, 0).value;
      CollectScenesReshapes(chId, ns[1..], g, o2);
      ReshapedTrans(o.chapters, o2.chapters, CollectScenes(chId, ns, g, o).value.chapters);
    } else if |ns| > 0 {
      CollectScenesReshapes(chId, ns[1..], g, o);
    }
  }

  lemma ChildReshapes(top: string, n1: Node, g: Guids, o: Outline, code: Code)
    requires Child(top, n1, g, o, code).Ok?
    ensures Reshaped(o.chapters, Child(top, n1, g, o, code).value.chapters)
  {
    if n1.id in g.ch {
      var o1 := o.(srt := o.srt + [g.ch[n1.id]]);
      var o2 := SetLevel(o1, g.ch[top], 1).value;
      CollectScenesReshapes(g.ch[n1.id], n1.children, g, o2);
      ReshapedTrans(o.chapters, o2.chapters, Child(top, n1, g, o, code).value.chapters);
    }
  }

  lemma {:induction false} ChildrenReshape(top: string, ns: seq<Node>, g: Guids, o: Outline, code: Code)
    requires Children(top, ns, g, o, code).Ok?
    ensures Reshaped(o.chapters, Children(top, ns, g, o, code).value.chapters)
    decreases |ns|
  {
    if |ns| > 0 {
      ChildrenUnfold(top, ns, g, o, code);
      var o1 := Child(top, ns[0], g, o, code).value;
      ChildReshapes(top, ns[0], g, o, code);
      ChildrenReshape(top, ns[1..], g, o1, code);
      ReshapedTrans(o.chapters, o1.chapters, Children(top, ns, g, o, code).value.chapters);
    }
  }

  /** The walk changes chapters' levels and scene lists and nothing else. */
  lemma {:induction false} WalkReshapes(ns: seq<Node>, g: Guids, o: Outline, code: Code)
    requires Walk(ns, g, o, code).Ok?
    ensures Reshaped(o.chapters, Walk(ns, g, o, code).value.chapters)
    decreases |ns|
  {
    if |ns| > 0 {
      WalkUnfold(ns, g, o, code);
      var o1 := Top(ns[0], g, o, code).value;
      var o0 := if ns[0].id in g.ch then o.(srt := o.srt + [g.ch[ns[0].id]]) else o;
      ChildrenReshape(ns[0].id, ns[0].children, g, o0, code);
      WalkReshapes(ns[1..], g, o1, code);
      ReshapedTrans(o.chapters, o1.chapters, Walk(ns, g, o, code).value.chapters);
    }
  }

  // ---------------------------------------------------------------------
  // Reading a document

  /** Classify the items, walk the tree, and add the dummy chapter if needed. */
  function Read(doc: Doc, code: Code, iso: IsoOf): Result<Project> {
    var st :- Classify(doc.byId, code, iso);
    var o :- Walk(doc.narrative, st.g, Outline(st.p.chapters, st.p.srtChapters), code);
    var d := Dummy(o);
    Ok(st.p.(chapters := d.chapters, srtChapters := d.srt))
  }

  /** The whole reader: the JSON part of the file, an empty one being an
      error, then the parsed document. As written, an unparsable part
      raises a TypeError in the handler meant to report it. */
  function ReadFile(file: Aeon3Fop.FileContent, decode: seq<Aeon3Fop.byte> -> Option<string>,
                    parse: string -> Option<Doc>, code: Code, iso: IsoOf): Result<Project>
  {
    var text :- Aeon3Fop.ScanFile(file, decode);
    if text == "" then Err(NoJsonPart)
    else
      match parse(text)
      case None => Err(if code.AsWritten? then TypeError else CannotParse)
      case Some(doc) => Read(doc, code, iso)
  }

  /** The uid table sends every uid to one of the dense ids. */
  lemma {:induction false} IdsByUidValues(es: seq<(string, Item)>)
    ensures forall u | u in IdsByUid(es) :: IdsByUid(es)[u] in Elems(DenseIds(|es|))
    decreases |es|
  {
    if |es| > 0 {
      var n := |es| - 1;
      IdsByUidValues(es[..n]);
      DenseIdsNext(n);
      assert es[..n + 1] == es;
      ElemsConcat(DenseIds(n), [NatToString(n + 1)]);
    }
  }

  /** After classification, every container uid has its chapter. */
  lemma ClassifiedCovered(byId: seq<(string, Item)>, st: Reading, code: Code, iso: IsoOf)
    requires Classified(byId, st, code, iso)
    ensures Covered(st.g, st.p.chapters)
  {
    IdsByUidValues(Kind(byId, TypeNarrative));
  }

  /** The uid tables classification builds for `byId`. */
  ghost function GuidsOf(byId: seq<(string, Item)>): Guids {
    Guids(IdsByUid(Kind(byId, TypeEvent)), IdsByUid(Kind(byId, TypeNarrative)),
          IdsByUid(Kind(byId, TypeCharacter)), IdsByUid(Kind(byId, TypeLocation)))
  }

  lemma ReadUnfold(doc: Doc, code: Code, iso: IsoOf)
    requires Read(doc, code, iso).Ok?
    ensures Classify(doc.byId, code, iso).Ok?
    ensures var st := Classify(doc.byId, code, iso).value;
      var w := Walk(doc.narrative, st.g, Outline(st.p.chapters, st.p.srtChapters), code);
      && Classified(doc.byId, st, code, iso)
      && st.g == GuidsOf(doc.byId)
      && Covered(st.g, st.p.chapters)
      && w.Ok?
      && Read(doc, code, iso).value == st.p.(chapters := Dummy(w.value).chapters, srtChapters := Dummy(w.value).srt)
  {
    var st := Classify(doc.byId, code, iso).value;
    ClassifyOk(doc.byId, code, iso);
    ClassifiedCovered(doc.byId, st, code, iso);
  }

  /** Reading makes scene k+1 from event k, character k+1 from person k and
      numbers the locations the same way (filling them only as intended);
      it creates no items and sets nothing else of the project. */
  lemma ReadEntities(doc: Doc, code: Code, iso: IsoOf)
    requires Read(doc, code, iso).Ok?
    ensures var r := Read(doc, code, iso).value;
      var cr := Kind(doc.byId, TypeCharacter);
      var lc := Kind(doc.byId, TypeLocation);
      && Filed(r.scenes, Kind(doc.byId, TypeEvent), EventFitsWith(iso))
      && Filed(r.characters, cr, CharacterFits) && r.srtCharacters == DenseIds(|cr|)
      && r.locations.Keys == Elems(DenseIds(|lc|)) && r.srtLocations == DenseIds(|lc|)
      && (code.Corrected? ==> Filed(r.locations, lc, LocationFits))
      && r.items == map[] && r.srtItems == []
      && r.(scenes := map[], chapters := map[], srtChapters := [], characters := map[], srtCharacters := [],
            locations := map[], srtLocations := []) == NewProject
  {
    ReadUnfold(doc, code, iso);
  }

  lemma {:induction false} NoContainers(ns: seq<Node>)
    ensures Containers(ns, map[]) == []
    decreases |ns|
  {
    if |ns| > 0 {
      NoContainers(ns[1..]);
    }
  }

  lemma {:induction false} NoOrder(ns: seq<Node>)
    ensures ChapterOrder(ns, map[]) == []
    decreases |ns|
  {
    if |ns| > 0 {
      NoContainers(ns[0].children);
      NoOrder(ns[1..]);
    }
  }

  /** Chapter k+1 is made from narrative container k, and the chapters are
      ordered as the tree lists the containers; without any container the
      only chapter is the dummy chapter "1". */
  lemma ReadChapters(doc: Doc, code: Code, iso: IsoOf)
    requires Read(doc, code, iso).Ok?
    ensures var r := Read(doc, code, iso).value;
      var na := Kind(doc.byId, TypeNarrative);
      && (|na| == 0 ==> r.chapters == map["1" := DummyChapter] && r.srtChapters == ["1"])
      && (|na| > 0 ==> r.chapters.Keys == Elems(DenseIds(|na|))
                       && r.srtChapters == ChapterOrder(doc.narrative, IdsByUid(na)))
      && forall k | 0 <= k < |na| :: DenseIds(|na|)[k] in r.chapters
           && ChapterFits(r.chapters[DenseIds(|na|)[k]].(chLevel := None, srtScenes := []), na[k].1)
  {
    ReadUnfold(doc, code, iso);
    var na := Kind(doc.byId, TypeNarrative);
    var st := Classify(doc.byId, code, iso).value;
    var o := Outline(st.p.chapters, st.p.srtChapters);
    var w := Walk(doc.narrative, st.g, o, code).value;
    WalkOk(doc.narrative, st.g, o, code);
    WalkReshapes(doc.narrative, st.g, o, code);
    assert st.p.srtChapters == [];
    if |na| == 0 {
      assert st.p.chapters.Keys == {};
      assert w.chapters == map[];
      NoOrder(doc.narrative);
      assert w.srt == [];
    } else {
      assert DenseIds(|na|)[0] in w.chapters;
      assert [] + ChapterOrder(doc.narrative, IdsByUid(na)) == ChapterOrder(doc.narrative, IdsByUid(na));
    }
  }

  /** The level the last container-or-event node of `ns` gives its
      top-level container: 1 for a container, 0 for an event. */
  function LastLevel(ns: seq<Node>, g: Guids): Option<int>
    decreases |ns|
  {
    if |ns| == 0 then None
    else
      var n := ns[|ns| - 1];
      if n.id in g.ch then Some(1)
      else if n.id in g.sc then Some(0)
      else LastLevel(ns[..|ns| - 1], g)
  }

  lemma {:induction false} TopChapterSnoc(ch: Chapter, ns: seq<Node>, n: Node, g: Guids)
    ensures TopChapter(ch, ns + [n], g) == TopStep(TopChapter(ch, ns, g), n, g)
    decreases |ns|
  {
    if |ns| > 0 {
      assert (ns + [n])[1..] == ns[1..] + [n];
      TopChapterSnoc(TopStep(ch, ns[0], g), ns[1..], n, g);
    }
  }

  /** A top-level container's level is set by its last container-or-event child. */
  lemma {:induction false} TopChapterLevel(ch: Chapter, ns: seq<Node>, g: Guids)
    ensures TopChapter(ch, ns, g).chLevel == if LastLevel(ns, g).Some? then LastLevel(ns, g) else ch.chLevel
    decreases |ns|
  {
    if |ns| > 0 {
      var pre := ns[..|ns| - 1];
      assert ns == pre + [ns[|ns| - 1]];
      TopChapterSnoc(ch, pre, ns[|ns| - 1], g);
      TopChapterLevel(ch, pre, g);
    }
  }

  lemma {:induction false} NoDirectScenes(ns: seq<Node>, g: Guids)
    requires forall k | 0 <= k < |ns| :: ns[k].id in g.ch || ns[k].id !in g.sc
    ensures DirectScenes(ns, g) == []
    decreases |ns|
  {
    if |ns| > 0 {
      NoDirectScenes(ns[1..], g);
    }
  }

  /** Classified chapters have no level and no scenes yet. */
  lemma ClassifiedBlank(byId: seq<(string, Item)>, st: Reading, code: Code, iso: IsoOf)
    requires Classified(byId, st, code, iso)
    ensures forall c | c in st.p.chapters :: st.p.chapters[c].srtScenes == [] && st.p.chapters[c].chLevel == None
  {
    forall c | c in st.p.chapters ensures st.p.chapters[c].srtScenes == [] && st.p.chapters[c].chLevel == None {
      var k :| 0 <= k < |DenseIds(st.n.chapters)| && DenseIds(st.n.chapters)[k] == c;
    }
  }

  /** The walk of a successful read, from the classified chapters. */
  lemma ReadWalk(doc: Doc, code: Code, iso: IsoOf)
    requires Read(doc, code, iso).Ok?
    ensures Classify(doc.byId, code, iso).Ok?
    ensures var st := Classify(doc.byId, code, iso).value;
      var w := Walk(doc.narrative, st.g, Outline(st.p.chapters, st.p.srtChapters), code);
      && st.g == GuidsOf(doc.byId)
      && Covered(st.g, st.p.chapters)
      && (forall c | c in st.p.chapters :: st.p.chapters[c].srtScenes == [] && st.p.chapters[c].chLevel == None)
      && w.Ok?
      && Read(doc, code, iso).value.chapters == Dummy(w.value).chapters
  {
    ReadUnfold(doc, code, iso);
    ClassifiedBlank(doc.byId, Classify(doc.byId, code, iso).value, code, iso);
  }

  /** When no chapter appears twice in the order, a top-level container
      gathers the events directly under it and takes the level of its last
      container-or-event child. */
  lemma ReadTops(doc: Doc, code: Code, iso: IsoOf, i: nat)
    requires Read(doc, code, iso).Ok?
    requires Distinct(ChapterOrder(doc.narrative, IdsByUid(Kind(doc.byId, TypeNarrative))))
    requires i < |doc.narrative| && doc.narrative[i].id in GuidsOf(doc.byId).ch
    ensures var r := Read(doc, code, iso).value;
      var n := doc.narrative[i];
      var g := GuidsOf(doc.byId);
      var c := g.ch[n.id];
      c in r.chapters && r.chapters[c].srtScenes == DirectScenes(n.children, g)
      && r.chapters[c].chLevel == LastLevel(n.children, g)
  {
    ReadWalk(doc, code, iso);
    var ns := doc.narrative;
    var st := Classify(doc.byId, code, iso).value;
    var o := Outline(st.p.chapters, st.p.srtChapters);
    var c := st.g.ch[ns[i].id];
    WalkTops(ns, st.g, o, code, i);
    TopChapterScenes(o.chapters[c], ns[i].children, st.g);
    TopChapterLevel(o.chapters[c], ns[i].children, st.g);
    assert [] + DirectScenes(ns[i].children, st.g) == DirectScenes(ns[i].children, st.g);
  }

  /** When no chapter appears twice in the order, a container child
      gathers the events under it and is a chapter of scenes exactly when
      there is one. */
  lemma ReadUnder(doc: Doc, code: Code, iso: IsoOf, i: nat, j: nat)
    requires Read(doc, code, iso).Ok?
    requires Distinct(ChapterOrder(doc.narrative, IdsByUid(Kind(doc.byId, TypeNarrative))))
    requires i < |doc.narrative| && j < |doc.narrative[i].children|
    requires doc.narrative[i].children[j].id in GuidsOf(doc.byId).ch
    ensures var r := Read(doc, code, iso).value;
      var n := doc.narrative[i].children[j];
      var g := GuidsOf(doc.byId);
      var c := g.ch[n.id];
      var ids := SceneIds(n.children, g.sc);
      c in r.chapters && r.chapters[c].srtScenes == ids
      && r.chapters[c].chLevel == (if |ids| > 0 then Some(0) else None)
  {
    ReadWalk(doc, code, iso);
    var ns := doc.narrative;
    var st := Classify(doc.byId, code, iso).value;
    var o := Outline(st.p.chapters, st.p.srtChapters);
    var n := ns[i].children[j];
    var c := st.g.ch[n.id];
    WalkUnder(ns, st.g, o, code, i, j);
    ChildChapterScenes(o.chapters[c], n.children, st.g.sc);
    assert [] + SceneIds(n.children, st.g.sc) == SceneIds(n.children, st.g.sc);
  }

  /** When no chapter appears twice in the order, a chapter outside it
      (the dummy chapter among them) has no scenes and no level. */
  lemma ReadUnordered(doc: Doc, code: Code, iso: IsoOf, c: string)
    requires Read(doc, code, iso).Ok?
    requires Distinct(ChapterOrder(doc.narrative, IdsByUid(Kind(doc.byId, TypeNarrative))))
    requires c in Read(doc, code, iso).value.chapters
    requires c !in ChapterOrder(doc.narrative, IdsByUid(Kind(doc.byId, TypeNarrative)))
    ensures var r := Read(doc, code, iso).value;
      r.chapters[c].srtScenes == [] && r.chapters[c].chLevel == None
  {
    ReadWalk(doc, code, iso);
    var st := Classify(doc.byId, code, iso).value;
    var o := Outline(st.p.chapters, st.p.srtChapters);
    var w := Walk(doc.narrative, st.g, o, code).value;
    if w.chapters != map[] {
      WalkOk(doc.narrative, st.g, o, code);
      WalkFrame(doc.narrative, st.g, o, code, c);
    }
  }

  /** As written, a read that succeeds has no event directly under a
      top-level node. */
  lemma ReadNoDirect(doc: Doc, iso: IsoOf, i: nat)
    requires Read(doc, AsWritten, iso).Ok?
    requires i < |doc.narrative|
    ensures DirectScenes(doc.narrative[i].children, GuidsOf(doc.byId)) == []
  {
    ReadWalk(doc, AsWritten, iso);
    var st := Classify(doc.byId, AsWritten, iso).value;
    var n := doc.narrative[i];
    WalkOk(doc.narrative, st.g, Outline(st.p.chapters, st.p.srtChapters), AsWritten);
    assert forall k | 0 <= k < |n.children| :: ChildFits(n.id, n.children[k], st.g, AsWritten);
    NoDirectScenes(n.children, st.g);
  }

  /** An entry the classification can read: it has a type, an entry of
      one of the four read types has a label and a summary, and an event
      has a `startDate` object with a timestamp member. */
  predicate Readable(item: Item) {
    var read := item.kind == Value(TypeEvent) || item.kind == Value(TypeNarrative)
      || item.kind == Value(TypeCharacter) || item.kind == Value(TypeLocation);
    && !item.kind.Absent?
    && (read ==> !item.title.Absent? && !item.summary.Absent?)
    && (item.kind == Value(TypeEvent) ==> item.startDate.Value? && !item.startDate.v.Absent?)
  }

  /** What the location branch as written needs of the entries before a
      location: at least one character, and no more characters than one
      past the locations so far, so that the character counter names a
      stored location. */
  predicate Placed(pre: seq<(string, Item)>) {
    1 <= |Kind(pre, TypeCharacter)| <= |Kind(pre, TypeLocation)| + 1
  }

  lemma AddLocationOk(st: Reading, uid: string, item: Item)
    requires st.p.locations.Keys == Elems(DenseIds(st.n.locations))
    ensures AddLocation(st, uid, item).Ok? <==>
      !item.title.Absent? && !item.summary.Absent? && 1 <= st.n.characters <= st.n.locations + 1
  {
    if st.n.characters >= 1 {
      var blank := st.p.locations[NatToString(st.n.locations + 1) := NewWorldElement];
      DenseIdsNext(st.n.locations);
      ElemsConcat(DenseIds(st.n.locations), [NatToString(st.n.locations + 1)]);
      assert blank.Keys == Elems(DenseIds(st.n.locations + 1));
      DenseIdsIndex(st.n.locations + 1, st.n.characters - 1, NatToString(st.n.characters));
    }
  }

  lemma AddItemOk(st: Reading, x: (string, Item), code: Code, iso: IsoOf)
    requires st.p.locations.Keys == Elems(DenseIds(st.n.locations))
    ensures AddItem(st, x, code, iso).Ok? <==>
      Readable(x.1)
      && (code.AsWritten? && x.1.kind == Value(TypeLocation) ==>
            1 <= st.n.characters <= st.n.locations + 1)
  {
    if x.1.kind == Value(TypeLocation) && code.AsWritten? {
      AddLocationOk(st, x.0, x.1);
      assert AddItem(st, x, code, iso) == AddLocation(st, x.0, x.1);
    }
  }

  /** Every entry is readable and, as written, every location entry is placed. */
  predicate Admissible(byId: seq<(string, Item)>, code: Code) {
    && (forall k | 0 <= k < |byId| :: Readable(byId[k].1))
    && (code.AsWritten? ==>
          forall k | 0 <= k < |byId| && byId[k].1.kind == Value(TypeLocation) :: Placed(byId[..k]))
  }

  lemma AdmissibleSnoc(pre: seq<(string, Item)>, x: (string, Item), code: Code)
    ensures Admissible(pre + [x], code) <==>
      Admissible(pre, code) && Readable(x.1) && (code.AsWritten? && x.1.kind == Value(TypeLocation) ==> Placed(pre))
  {
    var byId := pre + [x];
    assert byId[..|pre|] == pre;
    assert forall k | 0 <= k < |pre| :: byId[k] == pre[k] && byId[..k] == pre[..k];
    if Admissible(byId, code) {
      assert Readable(byId[|pre|].1);
      if code.AsWritten? {
        forall k | 0 <= k < |pre| && pre[k].1.kind == Value(TypeLocation) ensures Placed(pre[..k]) {
          assert Placed(byId[..k]);
        }
      }
    }
  }

  /** The counters after a successful classification. */
  lemma ClassifyCounts(byId: seq<(string, Item)>, code: Code, iso: IsoOf)
    requires Classify(byId, code, iso).Ok?
    ensures var st := Classify(byId, code, iso).value;
      && st.n.characters == |Kind(byId, TypeCharacter)|
      && st.n.locations == |Kind(byId, TypeLocation)|
      && st.p.locations.Keys == Elems(DenseIds(st.n.locations))
  {
    ClassifyOk(byId, code, iso);
  }

  /** The classification succeeds exactly when every entry is readable
      and, as written, every location entry is placed. */
  lemma {:induction false} ClassifyOkIff(byId: seq<(string, Item)>, code: Code, iso: IsoOf)
    ensures Classify(byId, code, iso).Ok? <==> Admissible(byId, code)
    decreases |byId|
  {
    if |byId| > 0 {
      var n := |byId| - 1;
      var pre := byId[..n];
      var x := byId[n];
      ClassifyOkIff(pre, code, iso);
      assert byId == pre + [x];
      AdmissibleSnoc(pre, x, code);
      if Classify(pre, code, iso).Ok? {
        var st := Classify(pre, code, iso).value;
        ClassifyCounts(pre, code, iso);
        AddItemOk(st, x, code, iso);
      }
    }
  }

  /** A read succeeds exactly when the classification does and every
      second-level node of the tree fits. */
  lemma ReadOk(doc: Doc, code: Code, iso: IsoOf)
    ensures Read(doc, code, iso).Ok? <==>
      Classify(doc.byId, code, iso).Ok? && WalkFits(doc.narrative, GuidsOf(doc.byId), code)
  {
    if Classify(doc.byId, code, iso).Ok? {
      var st := Classify(doc.byId, code, iso).value;
      ClassifyOk(doc.byId, code, iso);
      ClassifiedCovered(doc.byId, st, code, iso);
      WalkOk(doc.narrative, st.g, Outline(st.p.chapters, st.p.srtChapters), code);
    }
  }

  /** No chapter lists scene `s`. */
  ghost predicate NotFiled(chapters: map<string, Chapter>, s: string) {
    forall c | c in chapters :: s !in chapters[c].srtScenes
  }

  /** No event among `ns` is scene `s`. */
  ghost predicate Avoids(ns: seq<Node>, gsc: map<string, string>, s: string) {
    forall k | 0 <= k < |ns| && ns[k].id in gsc :: gsc[ns[k].id] != s
  }

  lemma {:induction false} CollectScenesAvoids(chId: string, ns: seq<Node>, g: Guids, o: Outline, s: string)
    requires CollectScenes(chId, ns, g, o).Ok? && NotFiled(o.chapters, s) && Avoids(ns, g.sc, s)
    ensures NotFiled(CollectScenes(chId, ns, g, o).value.chapters, s)
    decreases |ns|
  {
    if |ns| > 0 {
      assert forall k | 1 <= k < |ns| :: ns[1..][k - 1] == ns[k];
      if ns[0].id in g.sc {
        var o1 := AppendScene(o, chId, g.sc[ns[0].id]).value;
        var o2 := SetLevel(o1, chId, 0).value;
        assert NotFiled(o2.chapters, s);
        CollectScenesAvoids(chId, ns[1..], g, o2, s);
      } else {
        CollectScenesAvoids(chId, ns[1..], g, o, s);
      }
    }
  }

  /** Neither a node of `ns` nor a node under one is scene `s`. */
  ghost predicate AvoidsBelow(ns: seq<Node>, gsc: map<string, string>, s: string) {
    Avoids(ns, gsc, s) && forall k | 0 <= k < |ns| :: Avoids(ns[k].children, gsc, s)
  }

  lemma {:induction false} ChildrenAvoid(top: string, ns: seq<Node>, g: Guids, o: Outline, code: Code, s: string)
    requires Children(top, ns, g, o, code).Ok? && NotFiled(o.chapters, s) && AvoidsBelow(ns, g.sc, s)
    ensures NotFiled(Children(top, ns, g, o, code).value.chapters, s)
    decreases |ns|
  {
    if |ns| > 0 {
      ChildrenUnfold(top, ns, g, o, code);
      var n1 := ns[0];
      if n1.id in g.ch {
        var o1 := o.(srt := o.srt + [g.ch[n1.id]]);
        var o2 := SetLevel(o1, g.ch[top], 1).value;
        assert NotFiled(o2.chapters, s);
        CollectScenesAvoids(g.ch[n1.id], n1.children, g, o2, s);
      }
      assert forall k | 1 <= k < |ns| :: ns[1..][k - 1] == ns[k];
      ChildrenAvoid(top, ns[1..], g, Child(top, n1, g, o, code).value, code, s);
    }
  }

  lemma {:induction false} WalkAvoids(ns: seq<Node>, g: Guids, o: Outline, code: Code, s: string)
    requires Walk(ns, g, o, code).Ok? && NotFiled(o.chapters, s)
    requires forall i | 0 <= i < |ns| :: AvoidsBelow(ns[i].children, g.sc, s)
    ensures NotFiled(Walk(ns, g, o, code).value.chapters, s)
    decreases |ns|
  {
    if |ns| > 0 {
      WalkUnfold(ns, g, o, code);
      var o0 := if ns[0].id in g.ch then o.(srt := o.srt + [g.ch[ns[0].id]]) else o;
      ChildrenAvoid(ns[0].id, ns[0].children, g, o0, code, s);
      assert forall i | 1 <= i < |ns| :: ns[1..][i - 1] == ns[i];
      WalkAvoids(ns[1..], g, Top(ns[0], g, o, code).value, code, s);
    }
  }

  /** Only entry k's uid is sent to id k+1. */
  lemma {:induction false} IdsByUidFrom(es: seq<(string, Item)>, v: string, k: nat)
    requires v in IdsByUid(es) && k < |es| && IdsByUid(es)[v] == NatToString(k + 1)
    ensures es[k].0 == v
    decreases |es|
  {
    var n := |es| - 1;
    var pre := es[..n];
    if v == es[n].0 {
      if k != n {
        NatToStringInjective(k + 1, n + 1);
      }
    } else {
      IdsByUidValues(pre);
      DenseIdsIndex(n, k, NatToString(k + 1));
      IdsByUidFrom(pre, v, k);
    }
  }

  /** `u` is not the uid of a node on the second or third level of the tree. */
  predicate Unreached(u: string, ns: seq<Node>) {
    forall i, j | 0 <= i < |ns| && 0 <= j < |ns[i].children| ::
      ns[i].children[j].id != u && forall k | 0 <= k < |ns[i].children[j].children| :: ns[i].children[j].children[k].id != u
  }

  /** An event the tree does not reach on its second or third level is a
      scene of no chapter. */
  lemma ReadUnreached(doc: Doc, code: Code, iso: IsoOf, k: nat)
    requires Read(doc, code, iso).Ok?
    requires k < |Kind(doc.byId, TypeEvent)| && Unreached(Kind(doc.byId, TypeEvent)[k].0, doc.narrative)
    ensures NotFiled(Read(doc, code, iso).value.chapters, NatToString(k + 1))
  {
    ReadWalk(doc, code, iso);
    var ev := Kind(doc.byId, TypeEvent);
    var s := NatToString(k + 1);
    var ns := doc.narrative;
    var st := Classify(doc.byId, code, iso).value;
    var o := Outline(st.p.chapters, st.p.srtChapters);
    forall i | 0 <= i < |ns| ensures AvoidsBelow(ns[i].children, st.g.sc, s) {
      forall j | 0 <= j < |ns[i].children| && ns[i].children[j].id in st.g.sc
        ensures st.g.sc[ns[i].children[j].id] != s
      {
        if st.g.sc[ns[i].children[j].id] == s {
          IdsByUidFrom(ev, ns[i].children[j].id, k);
        }
      }
      forall j | 0 <= j < |ns[i].children| ensures Avoids(ns[i].children[j].children, st.g.sc, s) {
        var m := ns[i].children[j].children;
        forall l | 0 <= l < |m| && m[l].id in st.g.sc ensures st.g.sc[m[l].id] != s {
          if st.g.sc[m[l].id] == s {
            IdsByUidFrom(ev, m[l].id, k);
          }
        }
      }
    }
    WalkAvoids(ns, st.g, o, code, s);
  }

  // ---------------------------------------------------------------------
  // The file, and the three defects on small inputs

  /** The file reader fails as the scan fails, on an empty JSON part, on
      text that does not parse, and as the read of the parsed document
      fails; it succeeds with that read's project otherwise. */
  lemma ReadFileOk(file: Aeon3Fop.FileContent, decode: seq<Aeon3Fop.byte> -> Option<string>,
                   parse: string -> Option<Doc>, code: Code, iso: IsoOf)
    ensures var r := ReadFile(file, decode, parse, code, iso);
      var t := Aeon3Fop.ScanFile(file, decode);
      && (t.Err? ==> r == Err(t.error))
      && (t.Ok? && t.value == "" ==> r == Err(NoJsonPart))
      && (r.Ok? <==> t.Ok? && t.value != "" && parse(t.value).Some? && Read(parse(t.value).value, code, iso).Ok?)
      && (r.Ok? ==> r.value == Read(parse(t.value).value, code, iso).value)
  {
  }

  /** As written, JSON that does not parse ends in a TypeError instead of
      the reader's own error: the handler names a string, not an exception
      class. */
  lemma UnparsableJson(file: Aeon3Fop.FileContent, decode: seq<Aeon3Fop.byte> -> Option<string>,
                       parse: string -> Option<Doc>, iso: IsoOf)
    requires Aeon3Fop.ScanFile(file, decode).Ok?
    requires Aeon3Fop.ScanFile(file, decode).value != ""
    requires parse(Aeon3Fop.ScanFile(file, decode).value) == None
    ensures ReadFile(file, decode, parse, AsWritten, iso) == Err(TypeError)
  {
  }

  /** Corrected, JSON that does not parse is reported as unparsable, and
      JSON that does is read. */
  lemma UnparsableJsonReported(file: Aeon3Fop.FileContent, decode: seq<Aeon3Fop.byte> -> Option<string>,
                               parse: string -> Option<Doc>, iso: IsoOf)
    requires Aeon3Fop.ScanFile(file, decode).Ok?
    requires Aeon3Fop.ScanFile(file, decode).value != ""
    ensures var text := Aeon3Fop.ScanFile(file, decode).value;
      && (parse(text) == None ==> ReadFile(file, decode, parse, Corrected, iso) == Err(CannotParse))
      && (parse(text).Some? ==> ReadFile(file, decode, parse, Corrected, iso) == Read(parse(text).value, Corrected, iso))
  {
  }

  lemma ClassifySnoc(pre: seq<(string, Item)>, x: (string, Item), code: Code, iso: IsoOf)
    ensures Classify(pre + [x], code, iso) ==
      if Classify(pre, code, iso).Ok? then AddItem(Classify(pre, code, iso).value, x, code, iso)
      else Classify(pre, code, iso)
  {
    assert (pre + [x])[..|pre|] == pre;
  }

  function Entry(kind: string, title: string): Item {
    Item(Value(kind), Value(title), Null, Value(Null))
  }

  const Ann := ("c", Entry(TypeCharacter, "Ann"))
  const Inn := ("a", Entry(TypeLocation, "Inn"))
  const Mill := ("b", Entry(TypeLocation, "Mill"))

  /** As written, one character and then two locations leave the second
      location's label on location "1" and location "2" blank. */
  lemma LocationLabelMisfiled(iso: IsoOf)
    ensures var r := Classify([Ann, Inn, Mill], AsWritten, iso);
      r.Ok? && r.value.p.locations == map["1" := NewWorldElement.(title := Some("Mill")), "2" := NewWorldElement]
  {
    assert NatToString(1) == "1" && NatToString(2) == "2";
    ClassifySnoc([], Ann, AsWritten, iso);
    assert [] + [Ann] == [Ann];
    var st1 := AddCharacter(Start, "c", Ann.1).value;
    assert Classify([Ann], AsWritten, iso) == Ok(st1);
    ClassifySnoc([Ann], Inn, AsWritten, iso);
    var st2 := AddLocation(st1, "a", Inn.1).value;
    assert st2.p.locations == map["1" := NewWorldElement.(title := Some("Inn"))];
    assert Classify([Ann, Inn], AsWritten, iso) == Ok(st2);
    ClassifySnoc([Ann, Inn], Mill, AsWritten, iso);
    assert [Ann, Inn] + [Mill] == [Ann, Inn, Mill];
    var st3 := AddLocation(st2, "b", Mill.1).value;
    assert st3.p.locations == map["1" := NewWorldElement.(title := Some("Mill")), "2" := NewWorldElement];
  }

  /** As written, a location before any character stops the reading. */
  lemma LocationBeforeCharacter(iso: IsoOf)
    ensures Classify([Inn], AsWritten, iso) == Err(UnboundLocal)
  {
    ClassifySnoc([], Inn, AsWritten, iso);
    assert [] + [Inn] == [Inn];
  }

  /** Corrected, the same entries give each location its own label. */
  lemma LocationLabelFiled(iso: IsoOf)
    ensures var r := Classify([Ann, Inn, Mill], Corrected, iso);
      r.Ok? && r.value.p.locations == map["1" := NewWorldElement.(title := Some("Inn")),
                                         "2" := NewWorldElement.(title := Some("Mill"))]
  {
    assert NatToString(1) == "1" && NatToString(2) == "2";
    ClassifySnoc([], Ann, Corrected, iso);
    assert [] + [Ann] == [Ann];
    var st1 := AddCharacter(Start, "c", Ann.1).value;
    ClassifySnoc([Ann], Inn, Corrected, iso);
    var st2 := AddLocationIntended(st1, "a", Inn.1).value;
    assert Classify([Ann, Inn], Corrected, iso) == Ok(st2);
    ClassifySnoc([Ann, Inn], Mill, Corrected, iso);
    assert [Ann, Inn] + [Mill] == [Ann, Inn, Mill];
  }

  const Part := ("n", Entry(TypeNarrative, "Part"))
  const Fire := ("e", Entry(TypeEvent, "Fire"))

  /** A container with one event directly under it. */
  const SceneUnderTop := Doc([Part, Fire], [Node("n", [Node("e", [])])])

  lemma SceneUnderTopClassified(code: Code, iso: IsoOf)
    ensures var r := Classify(SceneUnderTop.byId, code, iso);
      r.Ok? && r.value.g.ch == map["n" := "1"] && r.value.g.sc == map["e" := "1"]
      && r.value.p.chapters == map["1" := NewChapter.(title := Some("Part"))] && r.value.p.srtChapters == []
  {
    assert NatToString(1) == "1";
    ClassifySnoc([], Part, code, iso);
    assert [] + [Part] == [Part];
    ClassifySnoc([Part], Fire, code, iso);
    assert [Part] + [Fire] == SceneUnderTop.byId;
  }

  /** As written, an event directly under a top-level container is looked
      up among the containers and the read fails. */
  lemma SceneUnderTopFails(iso: IsoOf)
    ensures Read(SceneUnderTop, AsWritten, iso) == Err(KeyError)
  {
    SceneUnderTopClassified(AsWritten, iso);
  }

  /** Corrected, the event becomes scene "1" of chapter "1", a chapter of scenes. */
  lemma SceneUnderTopFiled(iso: IsoOf)
    ensures var r := Read(SceneUnderTop, Corrected, iso);
      r.Ok? && r.value.srtChapters == ["1"] && "1" in r.value.chapters
      && r.value.chapters["1"].srtScenes == ["1"] && r.value.chapters["1"].chLevel == Some(0)
  {
    SceneUnderTopClassified(Corrected, iso);
    var st := Classify(SceneUnderTop.byId, Corrected, iso).value;
    var top := Node("n", [Node("e", [])]);
    var o := Outline(st.p.chapters, st.p.srtChapters);
    var o1 := o.(srt := ["1"]);
    assert NewChapter.srtScenes + ["1"] == ["1"];
    var a := AppendScene(o1, "1", "1");
    assert a.Ok? && a.value.srt == ["1"] && a.value.chapters.Keys == {"1"} && a.value.chapters["1"].srtScenes == ["1"];
    var o2 := SetLevel(a.value, "1", 0).value;
    assert o2.srt == ["1"] && "1" in o2.chapters && o2.chapters["1"].srtScenes == ["1"] && o2.chapters["1"].chLevel == Some(0);
    assert Child("n", Node("e", []), st.g, o1, Corrected) == Ok(o2);
    assert Children("n", top.children, st.g, o1, Corrected) == Children("n", [], st.g, o2, Corrected);
    assert Top(top, st.g, o, Corrected) == Ok(o2);
    assert Walk([top], st.g, o, Corrected) == Walk([], st.g, o2, Corrected);
  }
}
