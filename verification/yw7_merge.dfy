/** The yWriter 7 project merge (`Yw7File.merge`, src/pywriter/yw/yw7_file.py).

    An imported project (the source) is reconciled into an existing one (the
    target). Locations, items and characters are rebuilt in the source's order
    when the source lists any; scenes and chapters are merged field by field,
    "overwrite if present, else keep"; a chapter's scene list drops scenes the
    import moved elsewhere and then gains the source's scenes in place; the
    chapter order gains the source's chapters in place. */
module Yw7Merge {
  import opened Wrappers
  import opened Seqs
  import opened Novel
  import opened ListMerge

  /** The custom keyword-variable names per record kind. The yWriter 7 file
      class declares every list empty; its subclasses extend them. */
  datatype KwFields = KwFields(
    project: seq<string>,
    chapter: seq<string>,
    scene: seq<string>,
    character: seq<string>,
    location: seq<string>,
    item: seq<string>)

  const Yw7KwFields := KwFields([], [], [], [], [], [])

  /** The general field rule: a present source value replaces, an absent one keeps. */
  function Pick<T>(src: Option<T>, tgt: Option<T>): Option<T> {
    if src.Some? then src else tgt
  }

  /** The title rule: only a non-empty source title replaces. */
  function PickTitle(src: Option<string>, tgt: Option<string>): Option<string> {
    if Truthy(src) then src else tgt
  }

  /** `r` is what the general rule makes of `src` over `tgt`. */
  predicate Overwritten<T(==)>(r: Option<T>, src: Option<T>, tgt: Option<T>) {
    (src.Some? ==> r == src) && (src.None? ==> r == tgt)
  }

  /** `r` is what the title rule makes of `src` over `tgt`. */
  predicate Retitled(r: Option<string>, src: Option<string>, tgt: Option<string>) {
    (Truthy(src) ==> r == src) && (!Truthy(src) ==> r == tgt)
  }

  /** The record an id has in `m`, or a new one. */
  function Prior<E>(m: map<string, E>, id: string, blank: E): E {
    if id in m then m[id] else blank
  }

  /** Keyword variables of a rebuilt location, item or character: each listed
      field comes from the source record if it has it, else from the previous
      record; a field in neither raises `KeyError` from the `except` branch. */
  function RebuildKw(fields: seq<string>, src: KwVar, prev: KwVar): (r: Result<KwVar>)
    ensures r.Ok? <==> forall k | 0 <= k < |fields| :: fields[k] in src || fields[k] in prev
    ensures r.Err? ==> r.error == KeyError
    ensures r.Ok? ==> r.value.Keys == Elems(fields)
    ensures r.Ok? ==> forall k | 0 <= k < |fields| ::
      r.value[fields[k]] == if fields[k] in src then src[fields[k]] else prev[fields[k]]
  {
    if |fields| == 0 then Ok(map[])
    else
      var f := fields[0];
      if f !in src && f !in prev then Err(KeyError)
      else
        var rest :- RebuildKw(fields[1..], src, prev);
        assert Elems(fields) == {f} + Elems(fields[1..]) by {
          assert fields == [f] + fields[1..];
          ElemsConcat([f], fields[1..]);
        }
        Ok(rest[f := if f in src then src[f] else prev[f]])
  }

  /** Keyword variables of a merged scene, chapter or project: each listed field
      the source has overwrites; everything else is kept. */
  function OverlayKw(fields: seq<string>, src: KwVar, tgt: KwVar): (r: KwVar)
    ensures r.Keys == tgt.Keys + (Elems(fields) * src.Keys)
    ensures forall f | f in r :: r[f] == if f in Elems(fields) && f in src then src[f] else tgt[f]
  {
    if |fields| == 0 then tgt
    else
      var f := fields[0];
      assert Elems(fields) == {f} + Elems(fields[1..]) by {
        assert fields == [f] + fields[1..];
        ElemsConcat([f], fields[1..]);
      }
      OverlayKw(fields[1..], src, if f in src then tgt[f := src[f]] else tgt)
  }

  /** A location as the merge writes it. As written, when the source has no
      image the previous description is copied where the image was meant to
      be, so the image ends up unset; corrected, the previous image is kept,
      as for items and characters. */
  function MergeLocation(code: Code, fields: seq<string>, src: WorldElement, prev: WorldElement): (r: Result<WorldElement>)
    ensures r.Ok? <==> RebuildKw(fields, src.kwVar, prev.kwVar).Ok?
    ensures r.Ok? && (code.AsWritten? || src.image.Some?) ==> r.value.image == src.image
    ensures r.Ok? && code.Corrected? && src.image.None? ==> r.value.image == prev.image
    ensures r.Ok? ==> Retitled(r.value.title, src.title, prev.title)
    ensures r.Ok? ==> Overwritten(r.value.desc, src.desc, prev.desc)
    ensures r.Ok? ==> Overwritten(r.value.tags, src.tags, prev.tags) && Overwritten(r.value.aka, src.aka, prev.aka)
    ensures r.Ok? ==> r.value.kwVar == RebuildKw(fields, src.kwVar, prev.kwVar).value
  {
    var kw :- RebuildKw(fields, src.kwVar, prev.kwVar);
    Ok(WorldElement(
      PickTitle(src.title, prev.title),
      Pick(src.desc, prev.desc),
      Pick(src.tags, prev.tags),
      Pick(src.aka, prev.aka),
      if code.AsWritten? then src.image else Pick(src.image, prev.image),
      kw))
  }

  /** An item: every field follows the general rule. */
  function MergeItem(fields: seq<string>, src: WorldElement, prev: WorldElement): (r: Result<WorldElement>)
    ensures r.Ok? <==> RebuildKw(fields, src.kwVar, prev.kwVar).Ok?
    ensures r.Ok? ==> Retitled(r.value.title, src.title, prev.title)
    ensures r.Ok? ==> Overwritten(r.value.desc, src.desc, prev.desc)
    ensures r.Ok? ==> Overwritten(r.value.tags, src.tags, prev.tags) && Overwritten(r.value.aka, src.aka, prev.aka)
    ensures r.Ok? ==> Overwritten(r.value.image, src.image, prev.image)
    ensures r.Ok? ==> r.value.kwVar == RebuildKw(fields, src.kwVar, prev.kwVar).value
  {
    var kw :- RebuildKw(fields, src.kwVar, prev.kwVar);
    Ok(WorldElement(
      PickTitle(src.title, prev.title),
      Pick(src.desc, prev.desc),
      Pick(src.tags, prev.tags),
      Pick(src.aka, prev.aka),
      Pick(src.image, prev.image),
      kw))
  }

  /** A location's merge differs from an item's only in the image, which,
      as written, the location takes from the source even when the source
      has none; corrected, it is an item's merge. */
  lemma LocationAsItem(code: Code, fields: seq<string>, src: WorldElement, prev: WorldElement)
    ensures MergeLocation(code, fields, src, prev).Ok? <==> MergeItem(fields, src, prev).Ok?
    ensures code.AsWritten? && MergeItem(fields, src, prev).Ok? ==>
      MergeLocation(code, fields, src, prev).value == MergeItem(fields, src, prev).value.(image := src.image)
    ensures code.Corrected? ==> MergeLocation(code, fields, src, prev) == MergeItem(fields, src, prev)
  {
  }

  /** As written, a location whose source has no image loses the image it had. */
  lemma MergeLocationLosesImage(fields: seq<string>, src: WorldElement, prev: WorldElement)
    requires MergeLocation(AsWritten, fields, src, prev).Ok? && src.image == None && prev.image.Some?
    ensures MergeLocation(AsWritten, fields, src, prev).value.image == None != prev.image
  {
  }

  /** Corrected, a location keeps its image unless the source brings one. */
  lemma MergeLocationKeepsImage(fields: seq<string>, src: WorldElement, prev: WorldElement)
    requires MergeLocation(Corrected, fields, src, prev).Ok?
    ensures src.image.Some? ==> MergeLocation(Corrected, fields, src, prev).value.image == src.image
    ensures src.image == None ==> MergeLocation(Corrected, fields, src, prev).value.image == prev.image
  {
  }

  function MergeCharacter(fields: seq<string>, src: Character, prev: Character): (r: Result<Character>)
    ensures r.Ok? <==> RebuildKw(fields, src.kwVar, prev.kwVar).Ok?
    ensures r.Ok? ==> Retitled(r.value.title, src.title, prev.title)
    ensures r.Ok? ==> Overwritten(r.value.desc, src.desc, prev.desc)
    ensures r.Ok? ==> Overwritten(r.value.tags, src.tags, prev.tags) && Overwritten(r.value.aka, src.aka, prev.aka)
    ensures r.Ok? ==> Overwritten(r.value.image, src.image, prev.image) && Overwritten(r.value.notes, src.notes, prev.notes)
    ensures r.Ok? ==> Overwritten(r.value.bio, src.bio, prev.bio) && Overwritten(r.value.goals, src.goals, prev.goals)
    ensures r.Ok? ==> Overwritten(r.value.fullName, src.fullName, prev.fullName)
    ensures r.Ok? ==> Overwritten(r.value.isMajor, src.isMajor, prev.isMajor)
    ensures r.Ok? ==> r.value.kwVar == RebuildKw(fields, src.kwVar, prev.kwVar).value
  {
    var kw :- RebuildKw(fields, src.kwVar, prev.kwVar);
    Ok(Character(
      PickTitle(src.title, prev.title),
      Pick(src.desc, prev.desc),
      Pick(src.tags, prev.tags),
      Pick(src.aka, prev.aka),
      Pick(src.image, prev.image),
      Pick(src.notes, prev.notes),
      Pick(src.bio, prev.bio),
      Pick(src.goals, prev.goals),
      Pick(src.fullName, prev.fullName),
      Pick(src.isMajor, prev.isMajor),
      kw))
  }

  /** Rebuild a collection in the order `order`: each listed id gets the source
      record merged into its previous record, or into a blank one when the id is
      new; an id the source collection lacks raises `KeyError`. */
  function RebuildAll<E>(order: seq<string>, src: map<string, E>, prev: map<string, E>, blank: E,
                         merge: (E, E) -> Result<E>): (r: Result<map<string, E>>)
    ensures r.Ok? <==> forall k | 0 <= k < |order| ::
      order[k] in src && merge(src[order[k]], Prior(prev, order[k], blank)).Ok?
    ensures r.Ok? ==> r.value.Keys == Elems(order)
    ensures r.Ok? ==> forall k | 0 <= k < |order| ::
      order[k] in src && Ok(r.value[order[k]]) == merge(src[order[k]], Prior(prev, order[k], blank))
  {
    if |order| == 0 then Ok(map[])
    else
      var id := order[0];
      if id !in src then Err(KeyError)
      else
        var e :- merge(src[id], Prior(prev, id, blank));
        var rest :- RebuildAll(order[1..], src, prev, blank, merge);
        assert Elems(order) == {id} + Elems(order[1..]) by {
          assert order == [id] + order[1..];
          ElemsConcat([id], order[1..]);
        }
        Ok(rest[id := e])
  }

  /** A scene reference list: a present source list replaces the target's,
      keeping only ids of the merged collection, in source order. */
  function MergeRefs(src: Option<seq<string>>, tgt: Option<seq<string>>, known: set<string>): (r: Option<seq<string>>)
    ensures src.None? ==> r == tgt
    ensures src.Some? ==> r.Some? && forall k | 0 <= k < |r.value| :: r.value[k] in src.value && r.value[k] in known
    ensures src.Some? ==> forall k | 0 <= k < |src.value| :: src.value[k] in known ==> src.value[k] in r.value
    ensures src.Some? ==> forall xs, ys | src.value == xs + ys ::
      r.value == FilterIn(xs, known) + FilterIn(ys, known)
    ensures src.Some? && |src.value| == 1 ==> r == Some(if src.value[0] in known then src.value else [])
  {
    if src.Some? then
      FilterInSplits(src.value, known);
      Some(FilterIn(src.value, known))
    else tgt
  }

  /** The date and time a merged scene gets: the source's when it has a date
      or time; none when it has only a day, hour or minute; else the target's. */
  function MergeDateTime(src: Scene, tgt: Scene): (r: (Option<string>, Option<string>))
    ensures Truthy(src.date) || Truthy(src.time) ==>
      && (src.date.Some? ==> r.0 == src.date) && (src.time.Some? ==> r.1 == src.time)
      && (src.date.None? ==> r.0 == tgt.date) && (src.time.None? ==> r.1 == tgt.time)
    ensures !(Truthy(src.date) || Truthy(src.time)) && (Truthy(src.minute) || Truthy(src.hour) || Truthy(src.day)) ==>
      r == (None, None)
    ensures !(Truthy(src.date) || Truthy(src.time) || Truthy(src.minute) || Truthy(src.hour) || Truthy(src.day)) ==>
      r == (tgt.date, tgt.time)
  {
    if Truthy(src.date) || Truthy(src.time) then (Pick(src.date, tgt.date), Pick(src.time, tgt.time))
    else if Truthy(src.minute) || Truthy(src.hour) || Truthy(src.day) then (None, None)
    else (tgt.date, tgt.time)
  }

  /** Every scene field outside the title, date, time, references and keyword
      variables follows the general rule. */
  predicate SceneFieldsOverwritten(r: Scene, src: Scene, tgt: Scene) {
    && Overwritten(r.desc, src.desc, tgt.desc) && Overwritten(r.sceneContent, src.sceneContent, tgt.sceneContent)
    && Overwritten(r.isUnused, src.isUnused, tgt.isUnused) && Overwritten(r.isNotesScene, src.isNotesScene, tgt.isNotesScene)
    && Overwritten(r.isTodoScene, src.isTodoScene, tgt.isTodoScene) && Overwritten(r.status, src.status, tgt.status)
    && Overwritten(r.sceneNotes, src.sceneNotes, tgt.sceneNotes) && Overwritten(r.tags, src.tags, tgt.tags)
    && Overwritten(r.field1, src.field1, tgt.field1) && Overwritten(r.field2, src.field2, tgt.field2)
    && Overwritten(r.field3, src.field3, tgt.field3) && Overwritten(r.field4, src.field4, tgt.field4)
    && Overwritten(r.appendToPrev, src.appendToPrev, tgt.appendToPrev)
    && Overwritten(r.minute, src.minute, tgt.minute) && Overwritten(r.hour, src.hour, tgt.hour)
    && Overwritten(r.day, src.day, tgt.day) && Overwritten(r.lastsMinutes, src.lastsMinutes, tgt.lastsMinutes)
    && Overwritten(r.lastsHours, src.lastsHours, tgt.lastsHours) && Overwritten(r.lastsDays, src.lastsDays, tgt.lastsDays)
    && Overwritten(r.isReactionScene, src.isReactionScene, tgt.isReactionScene)
    && Overwritten(r.isSubPlot, src.isSubPlot, tgt.isSubPlot) && Overwritten(r.goal, src.goal, tgt.goal)
    && Overwritten(r.conflict, src.conflict, tgt.conflict) && Overwritten(r.outcome, src.outcome, tgt.outcome)
  }

  /** A merged scene, given the ids of the merged characters, locations and items. */
  function MergeScene(fields: seq<string>, src: Scene, tgt: Scene,
                      crIds: set<string>, lcIds: set<string>, itIds: set<string>): Scene
  {
    var dt := MergeDateTime(src, tgt);
    Scene(
      PickTitle(src.title, tgt.title),
      Pick(src.desc, tgt.desc),
      Pick(src.sceneContent, tgt.sceneContent),
      Pick(src.isUnused, tgt.isUnused),
      Pick(src.isNotesScene, tgt.isNotesScene),
      Pick(src.isTodoScene, tgt.isTodoScene),
      Pick(src.status, tgt.status),
      Pick(src.sceneNotes, tgt.sceneNotes),
      Pick(src.tags, tgt.tags),
      Pick(src.field1, tgt.field1),
      Pick(src.field2, tgt.field2),
      Pick(src.field3, tgt.field3),
      Pick(src.field4, tgt.field4),
      Pick(src.appendToPrev, tgt.appendToPrev),
      dt.0,
      dt.1,
      Pick(src.minute, tgt.minute),
      Pick(src.hour, tgt.hour),
      Pick(src.day, tgt.day),
      Pick(src.lastsMinutes, tgt.lastsMinutes),
      Pick(src.lastsHours, tgt.lastsHours),
      Pick(src.lastsDays, tgt.lastsDays),
      Pick(src.isReactionScene, tgt.isReactionScene),
      Pick(src.isSubPlot, tgt.isSubPlot),
      Pick(src.goal, tgt.goal),
      Pick(src.conflict, tgt.conflict),
      Pick(src.outcome, tgt.outcome),
      MergeRefs(src.characters, tgt.characters, crIds),
      MergeRefs(src.locations, tgt.locations, lcIds),
      MergeRefs(src.items, tgt.items, itIds),
      OverlayKw(fields, src.kwVar, tgt.kwVar))
  }

  /** The field rules of a merged scene: the title rule for the title, the
      date and time as `MergeDateTime` decides, the reference lists filtered to
      the merged collections, the listed keyword variables overlaid, and the
      general rule for every other field. */
  lemma MergeSceneFields(fields: seq<string>, src: Scene, tgt: Scene,
                         crIds: set<string>, lcIds: set<string>, itIds: set<string>)
    ensures var r := MergeScene(fields, src, tgt, crIds, lcIds, itIds);
      && Retitled(r.title, src.title, tgt.title)
      && SceneFieldsOverwritten(r, src, tgt)
      && (r.date, r.time) == MergeDateTime(src, tgt)
      && r.characters == MergeRefs(src.characters, tgt.characters, crIds)
      && r.locations == MergeRefs(src.locations, tgt.locations, lcIds)
      && r.items == MergeRefs(src.items, tgt.items, itIds)
      && r.kwVar == OverlayKw(fields, src.kwVar, tgt.kwVar)
  {
  }

  /** The chapter's scene list before the merge: a scene stays when the source
      chapter lists it too, or when the import does not contain it at all. */
  function KeepUnmoved(tgtScenes: seq<string>, srcScenes: seq<string>, imported: set<string>): (r: seq<string>)
    ensures forall k | 0 <= k < |r| :: r[k] in tgtScenes && (r[k] in srcScenes || r[k] !in imported)
    ensures forall k | 0 <= k < |tgtScenes| ::
      (tgtScenes[k] in srcScenes || tgtScenes[k] !in imported) ==> tgtScenes[k] in r
  {
    FilterIn(tgtScenes, Elems(srcScenes) + (Elems(tgtScenes) - imported))
  }

  /** A merged chapter, given the ids of the source's scenes. */
  function MergeChapter(fields: seq<string>, src: Chapter, tgt: Chapter, imported: set<string>): (r: Chapter)
    ensures Retitled(r.title, src.title, tgt.title) && Overwritten(r.desc, src.desc, tgt.desc)
    ensures Overwritten(r.chLevel, src.chLevel, tgt.chLevel) && Overwritten(r.oldType, src.oldType, tgt.oldType)
    ensures Overwritten(r.chType, src.chType, tgt.chType) && Overwritten(r.isUnused, src.isUnused, tgt.isUnused)
    ensures Overwritten(r.suppressChapterTitle, src.suppressChapterTitle, tgt.suppressChapterTitle)
    ensures Overwritten(r.suppressChapterBreak, src.suppressChapterBreak, tgt.suppressChapterBreak)
    ensures Overwritten(r.isTrash, src.isTrash, tgt.isTrash)
    ensures Elems(r.srtScenes) == Elems(src.srtScenes) + (Elems(tgt.srtScenes) - imported)
    ensures var kept := KeepUnmoved(tgt.srtScenes, src.srtScenes, imported);
      FilterIn(r.srtScenes, Elems(kept)) == kept
    ensures r.kwVar == OverlayKw(fields, src.kwVar, tgt.kwVar)
  {
    MergedScenesAll(tgt.srtScenes, src.srtScenes, imported);
    Chapter(
      PickTitle(src.title, tgt.title),
      Pick(src.desc, tgt.desc),
      Pick(src.chLevel, tgt.chLevel),
      Pick(src.oldType, tgt.oldType),
      Pick(src.chType, tgt.chType),
      Pick(src.isUnused, tgt.isUnused),
      Pick(src.suppressChapterTitle, tgt.suppressChapterTitle),
      Pick(src.suppressChapterBreak, tgt.suppressChapterBreak),
      Pick(src.isTrash, tgt.isTrash),
      MergeLists(src.srtScenes, KeepUnmoved(tgt.srtScenes, src.srtScenes, imported)),
      OverlayKw(fields, src.kwVar, tgt.kwVar))
  }

  /** The merged scene map: source scenes merged into their target scenes (or
      new ones), the target's other scenes as they were. */
  function MergeSceneMap(fields: seq<string>, tgt: map<string, Scene>, src: map<string, Scene>,
                         crIds: set<string>, lcIds: set<string>, itIds: set<string>): (r: map<string, Scene>)
    ensures r.Keys == tgt.Keys + src.Keys
    ensures forall id | id in tgt && id !in src :: r[id] == tgt[id]
    ensures forall id | id in src :: r[id] == MergeScene(fields, src[id], Prior(tgt, id, NewScene), crIds, lcIds, itIds)
  {
    var m := map id | id in src :: MergeScene(fields, src[id], Prior(tgt, id, NewScene), crIds, lcIds, itIds);
    assert m.Keys == src.Keys;
    tgt + m
  }

  /** The merged chapter map, likewise. */
  function MergeChapterMap(fields: seq<string>, tgt: map<string, Chapter>, src: map<string, Chapter>,
                           imported: set<string>): (r: map<string, Chapter>)
    ensures r.Keys == tgt.Keys + src.Keys
    ensures forall id | id in tgt && id !in src :: r[id] == tgt[id]
    ensures forall id | id in src :: r[id] == MergeChapter(fields, src[id], Prior(tgt, id, NewChapter), imported)
  {
    var m := map id | id in src :: MergeChapter(fields, src[id], Prior(tgt, id, NewChapter), imported);
    assert m.Keys == src.Keys;
    tgt + m
  }

  /** A location, item or character collection with its order: rebuilt when the
      source order is non-empty, else kept. */
  function RebuildIfListed<E>(srcOrder: seq<string>, src: map<string, E>, tgtOrder: seq<string>, tgt: map<string, E>,
                              blank: E, merge: (E, E) -> Result<E>): (r: Result<(seq<string>, map<string, E>)>)
    ensures |srcOrder| == 0 ==> r == Ok((tgtOrder, tgt))
    ensures |srcOrder| > 0 ==> r.Ok? == RebuildAll(srcOrder, src, tgt, blank, merge).Ok?
    ensures |srcOrder| > 0 && r.Ok? ==> r.value == (srcOrder, RebuildAll(srcOrder, src, tgt, blank, merge).value)
  {
    if |srcOrder| == 0 then Ok((tgtOrder, tgt))
    else
      var m :- RebuildAll(srcOrder, src, tgt, blank, merge);
      Ok((srcOrder, m))
  }

  /** The merged project, and whether the scene splitter runs afterwards. */
  datatype Merged = Merged(novel: Project, needsSplit: bool)

  /** The merge of `src` into `tgt`. */
  function Merge(code: Code, fields: KwFields, tgt: Project, src: Project): Result<Merged> {
    var lc :- RebuildIfListed(src.srtLocations, src.locations, tgt.srtLocations, tgt.locations, NewWorldElement,
                              (s, p) => MergeLocation(code, fields.location, s, p));
    var it :- RebuildIfListed(src.srtItems, src.items, tgt.srtItems, tgt.items, NewWorldElement,
                              (s, p) => MergeItem(fields.item, s, p));
    var cr :- RebuildIfListed(src.srtCharacters, src.characters, tgt.srtCharacters, tgt.characters, NewCharacter,
                              (s, p) => MergeCharacter(fields.character, s, p));
    var novel := Project(
      PickTitle(src.title, tgt.title),
      Pick(src.desc, tgt.desc),
      Pick(src.authorName, tgt.authorName),
      Pick(src.authorBio, tgt.authorBio),
      Pick(src.fieldTitle1, tgt.fieldTitle1),
      Pick(src.fieldTitle2, tgt.fieldTitle2),
      Pick(src.fieldTitle3, tgt.fieldTitle3),
      Pick(src.fieldTitle4, tgt.fieldTitle4),
      OverlayKw(fields.project, src.kwVar, tgt.kwVar),
      MergeChapterMap(fields.chapter, tgt.chapters, src.chapters, src.scenes.Keys),
      MergeLists(src.srtChapters, tgt.srtChapters),
      MergeSceneMap(fields.scene, tgt.scenes, src.scenes, cr.1.Keys, lc.1.Keys, it.1.Keys),
      lc.1, lc.0, it.1, it.0, cr.1, cr.0);
    Ok(Merged(novel, exists id | id in src.scenes :: src.scenes[id].sceneContent.Some?))
  }

  /** The merge fails exactly when rebuilding the locations, items or
      characters fails; otherwise the project's own fields follow the title
      rule and the general rule, and its listed keyword variables are overlaid. */
  lemma MergeProject(code: Code, fields: KwFields, tgt: Project, src: Project)
    ensures Merge(code, fields, tgt, src).Ok? <==>
      && RebuildIfListed(src.srtLocations, src.locations, tgt.srtLocations, tgt.locations, NewWorldElement,
                         (s, p) => MergeLocation(code, fields.location, s, p)).Ok?
      && RebuildIfListed(src.srtItems, src.items, tgt.srtItems, tgt.items, NewWorldElement,
                         (s, p) => MergeItem(fields.item, s, p)).Ok?
      && RebuildIfListed(src.srtCharacters, src.characters, tgt.srtCharacters, tgt.characters, NewCharacter,
                         (s, p) => MergeCharacter(fields.character, s, p)).Ok?
    ensures Merge(code, fields, tgt, src).Ok? ==> var n := Merge(code, fields, tgt, src).value.novel;
      && Retitled(n.title, src.title, tgt.title)
      && Overwritten(n.desc, src.desc, tgt.desc)
      && Overwritten(n.authorName, src.authorName, tgt.authorName)
      && Overwritten(n.authorBio, src.authorBio, tgt.authorBio)
      && Overwritten(n.fieldTitle1, src.fieldTitle1, tgt.fieldTitle1)
      && Overwritten(n.fieldTitle2, src.fieldTitle2, tgt.fieldTitle2)
      && Overwritten(n.fieldTitle3, src.fieldTitle3, tgt.fieldTitle3)
      && Overwritten(n.fieldTitle4, src.fieldTitle4, tgt.fieldTitle4)
      && n.kwVar == OverlayKw(fields.project, src.kwVar, tgt.kwVar)
  {
  }

  /** Every source scene exists afterwards; a scene the source lacks is untouched. */
  lemma MergeScenes(code: Code, fields: KwFields, tgt: Project, src: Project)
    requires Merge(code, fields, tgt, src).Ok?
    ensures var n := Merge(code, fields, tgt, src).value.novel;
      && n.scenes.Keys == tgt.scenes.Keys + src.scenes.Keys
      && forall id | id in tgt.scenes && id !in src.scenes :: n.scenes[id] == tgt.scenes[id]
  {
  }

  /** A reference list the source supplies holds no dangling id afterwards. */
  lemma MergeSceneRefs(code: Code, fields: KwFields, tgt: Project, src: Project, id: string)
    requires Merge(code, fields, tgt, src).Ok? && id in src.scenes
    ensures var n := Merge(code, fields, tgt, src).value.novel;
      && id in n.scenes
      && (src.scenes[id].characters.Some? ==>
            n.scenes[id].characters.Some? && forall k | 0 <= k < |n.scenes[id].characters.value| ::
              n.scenes[id].characters.value[k] in n.characters && n.scenes[id].characters.value[k] in src.scenes[id].characters.value)
      && (src.scenes[id].locations.Some? ==>
            n.scenes[id].locations.Some? && forall k | 0 <= k < |n.scenes[id].locations.value| ::
              n.scenes[id].locations.value[k] in n.locations && n.scenes[id].locations.value[k] in src.scenes[id].locations.value)
      && (src.scenes[id].items.Some? ==>
            n.scenes[id].items.Some? && forall k | 0 <= k < |n.scenes[id].items.value| ::
              n.scenes[id].items.value[k] in n.items && n.scenes[id].items.value[k] in src.scenes[id].items.value)
  {
  }

  /** Every source chapter exists afterwards; a chapter the source lacks is untouched. */
  lemma MergeChapters(code: Code, fields: KwFields, tgt: Project, src: Project)
    requires Merge(code, fields, tgt, src).Ok?
    ensures var n := Merge(code, fields, tgt, src).value.novel;
      && n.chapters.Keys == tgt.chapters.Keys + src.chapters.Keys
      && forall id | id in tgt.chapters && id !in src.chapters :: n.chapters[id] == tgt.chapters[id]
  {
  }

  /** A source chapter's scene list afterwards holds a scene exactly when the
      source chapter lists it, or the target chapter listed it and the import
      does not contain it; the kept target scenes keep their order. */
  lemma MergeChapterScenes(code: Code, fields: KwFields, tgt: Project, src: Project, id: string, x: string)
    requires Merge(code, fields, tgt, src).Ok? && id in src.chapters
    ensures var n := Merge(code, fields, tgt, src).value.novel;
      var before := Prior(tgt.chapters, id, NewChapter).srtScenes;
      var kept := KeepUnmoved(before, src.chapters[id].srtScenes, src.scenes.Keys);
      && id in n.chapters
      && (x in n.chapters[id].srtScenes <==>
            x in src.chapters[id].srtScenes || (x in before && x !in src.scenes))
      && FilterIn(n.chapters[id].srtScenes, Elems(kept)) == kept
  {
    var n := Merge(code, fields, tgt, src).value.novel;
    var before := Prior(tgt.chapters, id, NewChapter).srtScenes;
    var srcScenes := src.chapters[id].srtScenes;
    assert n.chapters[id].srtScenes == MergeLists(srcScenes, KeepUnmoved(before, srcScenes, src.scenes.Keys));
    MergedScenes(before, srcScenes, src.scenes.Keys, x);
  }

  /** The scene-list merge of one chapter, on the lists alone. */
  lemma MergedScenes(before: seq<string>, srcScenes: seq<string>, imported: set<string>, x: string)
    ensures var kept := KeepUnmoved(before, srcScenes, imported);
      var r := MergeLists(srcScenes, kept);
      && (x in r <==> x in srcScenes || (x in before && x !in imported))
      && FilterIn(r, Elems(kept)) == kept
  {
    var kept := KeepUnmoved(before, srcScenes, imported);
    var r := MergeLists(srcScenes, kept);
    MergeElems(srcScenes, kept);
    MergeKeepsTarget(srcScenes, kept);
    assert x in r <==> x in Elems(r);
    if x in before && (x in srcScenes || x !in imported) {
      var k :| 0 <= k < |before| && before[k] == x;
      assert x in kept;
    }
  }

  /** The same, for every scene id at once. */
  lemma MergedScenesAll(before: seq<string>, srcScenes: seq<string>, imported: set<string>)
    ensures var kept := KeepUnmoved(before, srcScenes, imported);
      var r := MergeLists(srcScenes, kept);
      && Elems(r) == Elems(srcScenes) + (Elems(before) - imported)
      && FilterIn(r, Elems(kept)) == kept
  {
    var r := MergeLists(srcScenes, KeepUnmoved(before, srcScenes, imported));
    forall x ensures x in Elems(r) <==> x in Elems(srcScenes) + (Elems(before) - imported) {
      MergedScenes(before, srcScenes, imported, x);
    }
    MergedScenes(before, srcScenes, imported, []);
  }

  /** The chapter order keeps every target chapter in its order and gains the source's. */
  lemma MergeChapterOrder(code: Code, fields: KwFields, tgt: Project, src: Project)
    requires Merge(code, fields, tgt, src).Ok?
    ensures var n := Merge(code, fields, tgt, src).value.novel;
      && Elems(n.srtChapters) == Elems(tgt.srtChapters) + Elems(src.srtChapters)
      && FilterIn(n.srtChapters, Elems(tgt.srtChapters)) == tgt.srtChapters
  {
    MergeElems(src.srtChapters, tgt.srtChapters);
    MergeKeepsTarget(src.srtChapters, tgt.srtChapters);
  }

  /** A non-empty source order replaces the target's, and the collection then
      holds exactly the listed ids; an empty one leaves both alone. */
  lemma MergeLocations(code: Code, fields: KwFields, tgt: Project, src: Project)
    requires Merge(code, fields, tgt, src).Ok?
    ensures var n := Merge(code, fields, tgt, src).value.novel;
      && (|src.srtLocations| > 0 ==> n.srtLocations == src.srtLocations && n.locations.Keys == Elems(src.srtLocations))
      && (|src.srtLocations| == 0 ==> n.srtLocations == tgt.srtLocations && n.locations == tgt.locations)
      && (|src.srtItems| > 0 ==> n.srtItems == src.srtItems && n.items.Keys == Elems(src.srtItems))
      && (|src.srtItems| == 0 ==> n.srtItems == tgt.srtItems && n.items == tgt.items)
      && (|src.srtCharacters| > 0 ==> n.srtCharacters == src.srtCharacters && n.characters.Keys == Elems(src.srtCharacters))
      && (|src.srtCharacters| == 0 ==> n.srtCharacters == tgt.srtCharacters && n.characters == tgt.characters)
  {
  }

  /** A listed location takes the source title only when that is non-empty, else
      keeps the one it had (none, if the location is new). */
  lemma MergeLocationTitle(code: Code, fields: KwFields, tgt: Project, src: Project, id: string)
    requires Merge(code, fields, tgt, src).Ok? && id in src.srtLocations
    ensures var n := Merge(code, fields, tgt, src).value.novel;
      && id in src.locations && id in n.locations
      && (Truthy(src.locations[id].title) ==> n.locations[id].title == src.locations[id].title)
      && (!Truthy(src.locations[id].title) && id in tgt.locations ==> n.locations[id].title == tgt.locations[id].title)
      && (!Truthy(src.locations[id].title) && id !in tgt.locations ==> n.locations[id].title == None)
  {
    var k :| 0 <= k < |src.srtLocations| && src.srtLocations[k] == id;
  }

  /** The splitter runs afterwards exactly when some source scene carries content. */
  lemma MergeNeedsSplit(code: Code, fields: KwFields, tgt: Project, src: Project)
    requires Merge(code, fields, tgt, src).Ok?
    ensures Merge(code, fields, tgt, src).value.needsSplit <==> exists id | id in src.scenes :: src.scenes[id].sceneContent.Some?
  {
  }

  lemma RebuildKwIdempotent(fields: seq<string>, src: KwVar, prev: KwVar)
    requires RebuildKw(fields, src, prev).Ok?
    ensures RebuildKw(fields, src, RebuildKw(fields, src, prev).value) == RebuildKw(fields, src, prev)
  {
    var m := RebuildKw(fields, src, prev).value;
    forall k | 0 <= k < |fields| ensures fields[k] in m {
      assert fields[k] in Elems(fields);
    }
    var r2 := RebuildKw(fields, src, m);
    assert r2.Ok?;
    var m2 := r2.value;
    forall f | f in m ensures f in m2 && m2[f] == m[f] {
      var k :| 0 <= k < |fields| && fields[k] == f;
    }
    assert m2.Keys == m.Keys;
    assert m2 == m;
  }

  lemma OverlayKwIdempotent(fields: seq<string>, src: KwVar, tgt: KwVar)
    ensures OverlayKw(fields, src, OverlayKw(fields, src, tgt)) == OverlayKw(fields, src, tgt)
  {
  }

  lemma MergeLocationIdempotent(code: Code, fields: seq<string>, src: WorldElement, prev: WorldElement)
    requires MergeLocation(code, fields, src, prev).Ok?
    ensures MergeLocation(code, fields, src, MergeLocation(code, fields, src, prev).value) == MergeLocation(code, fields, src, prev)
  {
    RebuildKwIdempotent(fields, src.kwVar, prev.kwVar);
  }

  lemma MergeItemIdempotent(fields: seq<string>, src: WorldElement, prev: WorldElement)
    requires MergeItem(fields, src, prev).Ok?
    ensures MergeItem(fields, src, MergeItem(fields, src, prev).value) == MergeItem(fields, src, prev)
  {
    RebuildKwIdempotent(fields, src.kwVar, prev.kwVar);
  }

  lemma MergeCharacterIdempotent(fields: seq<string>, src: Character, prev: Character)
    requires MergeCharacter(fields, src, prev).Ok?
    ensures MergeCharacter(fields, src, MergeCharacter(fields, src, prev).value) == MergeCharacter(fields, src, prev)
  {
    RebuildKwIdempotent(fields, src.kwVar, prev.kwVar);
  }

  /** Merging a record into its own merge result changes nothing. */
  ghost predicate IdempotentOn<E>(merge: (E, E) -> Result<E>, s: E, p: E) {
    merge(s, p).Ok? ==> merge(s, merge(s, p).value) == merge(s, p)
  }

  /** Rebuilding again from the rebuilt collection gives it back, when each
      record merge is idempotent on the records involved. */
  lemma RebuildAllIdempotent<E>(order: seq<string>, src: map<string, E>, prev: map<string, E>, blank: E,
                                merge: (E, E) -> Result<E>)
    requires RebuildAll(order, src, prev, blank, merge).Ok?
    requires forall k | 0 <= k < |order| && order[k] in src ::
      IdempotentOn(merge, src[order[k]], Prior(prev, order[k], blank))
    ensures RebuildAll(order, src, RebuildAll(order, src, prev, blank, merge).value, blank, merge)
         == RebuildAll(order, src, prev, blank, merge)
  {
    var m := RebuildAll(order, src, prev, blank, merge).value;
    forall k | 0 <= k < |order|
      ensures order[k] in src && merge(src[order[k]], Prior(m, order[k], blank)) == Ok(m[order[k]])
    {
      assert order[k] in Elems(order);
      assert IdempotentOn(merge, src[order[k]], Prior(prev, order[k], blank));
    }
    var r2 := RebuildAll(order, src, m, blank, merge);
    assert r2.Ok?;
    var m2 := r2.value;
    forall id | id in m ensures id in m2 && m2[id] == m[id] {
      var k :| 0 <= k < |order| && order[k] == id;
    }
    assert m2.Keys == m.Keys;
    assert m2 == m;
  }

  lemma MergeSceneIdempotent(fields: seq<string>, src: Scene, tgt: Scene,
                             crIds: set<string>, lcIds: set<string>, itIds: set<string>)
    ensures var once := MergeScene(fields, src, tgt, crIds, lcIds, itIds);
      MergeScene(fields, src, once, crIds, lcIds, itIds) == once
  {
    OverlayKwIdempotent(fields, src.kwVar, tgt.kwVar);
  }

  /** Filtering a merged scene list again keeps all of it. */
  lemma KeepUnmovedMerged(tgtScenes: seq<string>, srcScenes: seq<string>, imported: set<string>)
    ensures var merged := MergeLists(srcScenes, KeepUnmoved(tgtScenes, srcScenes, imported));
      KeepUnmoved(merged, srcScenes, imported) == merged
  {
    var kept := KeepUnmoved(tgtScenes, srcScenes, imported);
    var merged := MergeLists(srcScenes, kept);
    MergeElems(srcScenes, kept);
    var keep := Elems(srcScenes) + (Elems(merged) - imported);
    forall x | x in Elems(merged) ensures x in keep {
      if x !in srcScenes {
        assert x in kept;
        var k :| 0 <= k < |kept| && kept[k] == x;
      }
    }
    FilterInAll(merged, keep);
  }

  lemma MergeChapterIdempotent(fields: seq<string>, src: Chapter, tgt: Chapter, imported: set<string>)
    ensures var once := MergeChapter(fields, src, tgt, imported);
      MergeChapter(fields, src, once, imported) == once
  {
    var once := MergeChapter(fields, src, tgt, imported);
    KeepUnmovedMerged(tgt.srtScenes, src.srtScenes, imported);
    MergeElems(src.srtScenes, KeepUnmoved(tgt.srtScenes, src.srtScenes, imported));
    MergeNoop(src.srtScenes, once.srtScenes);
    OverlayKwIdempotent(fields, src.kwVar, tgt.kwVar);
  }

  lemma RebuildIfListedIdempotent<E>(srcOrder: seq<string>, src: map<string, E>, tgtOrder: seq<string>,
                                     tgt: map<string, E>, blank: E, merge: (E, E) -> Result<E>)
    requires RebuildIfListed(srcOrder, src, tgtOrder, tgt, blank, merge).Ok?
    requires forall k | 0 <= k < |srcOrder| && srcOrder[k] in src ::
      IdempotentOn(merge, src[srcOrder[k]], Prior(tgt, srcOrder[k], blank))
    ensures var once := RebuildIfListed(srcOrder, src, tgtOrder, tgt, blank, merge).value;
      RebuildIfListed(srcOrder, src, once.0, once.1, blank, merge) == Ok(once)
  {
    if |srcOrder| > 0 {
      RebuildAllIdempotent(srcOrder, src, tgt, blank, merge);
    }
  }

  lemma SceneMapIdempotent(fields: seq<string>, tgt: map<string, Scene>, src: map<string, Scene>,
                           crIds: set<string>, lcIds: set<string>, itIds: set<string>)
    ensures var once := MergeSceneMap(fields, tgt, src, crIds, lcIds, itIds);
      MergeSceneMap(fields, once, src, crIds, lcIds, itIds) == once
  {
    var once := MergeSceneMap(fields, tgt, src, crIds, lcIds, itIds);
    var twice := MergeSceneMap(fields, once, src, crIds, lcIds, itIds);
    forall id | id in src ensures twice[id] == once[id] {
      SceneEntryIdempotent(fields, src[id], Prior(tgt, id, NewScene), once[id], twice[id], crIds, lcIds, itIds);
    }
    assert twice.Keys == once.Keys;
    assert twice == once;
  }

  /** One entry of the scene map, merged twice. */
  lemma SceneEntryIdempotent(fields: seq<string>, src: Scene, tgt: Scene, once: Scene, twice: Scene,
                             crIds: set<string>, lcIds: set<string>, itIds: set<string>)
    requires once == MergeScene(fields, src, tgt, crIds, lcIds, itIds)
    requires twice == MergeScene(fields, src, once, crIds, lcIds, itIds)
    ensures twice == once
  {
    MergeSceneIdempotent(fields, src, tgt, crIds, lcIds, itIds);
  }

  lemma ChapterMapIdempotent(fields: seq<string>, tgt: map<string, Chapter>, src: map<string, Chapter>,
                             imported: set<string>)
    ensures var once := MergeChapterMap(fields, tgt, src, imported);
      MergeChapterMap(fields, once, src, imported) == once
  {
    var once := MergeChapterMap(fields, tgt, src, imported);
    var twice := MergeChapterMap(fields, once, src, imported);
    forall id | id in src ensures twice[id] == once[id] {
      MergeChapterIdempotent(fields, src[id], Prior(tgt, id, NewChapter), imported);
    }
    assert twice == once;
  }

  lemma LocationsIdempotent(code: Code, fields: seq<string>, tgt: Project, src: Project)
    requires RebuildIfListed(src.srtLocations, src.locations, tgt.srtLocations, tgt.locations, NewWorldElement,
                             (s, p) => MergeLocation(code, fields, s, p)).Ok?
    ensures var merge := (s, p) => MergeLocation(code, fields, s, p);
      var once := RebuildIfListed(src.srtLocations, src.locations, tgt.srtLocations, tgt.locations, NewWorldElement, merge).value;
      RebuildIfListed(src.srtLocations, src.locations, once.0, once.1, NewWorldElement, merge) == Ok(once)
  {
    var merge := (s, p) => MergeLocation(code, fields, s, p);
    forall k | 0 <= k < |src.srtLocations| && src.srtLocations[k] in src.locations
      ensures IdempotentOn(merge, src.locations[src.srtLocations[k]], Prior(tgt.locations, src.srtLocations[k], NewWorldElement))
    {
      var s, p := src.locations[src.srtLocations[k]], Prior(tgt.locations, src.srtLocations[k], NewWorldElement);
      if MergeLocation(code, fields, s, p).Ok? {
        MergeLocationIdempotent(code, fields, s, p);
      }
    }
    RebuildIfListedIdempotent(src.srtLocations, src.locations, tgt.srtLocations, tgt.locations, NewWorldElement, merge);
  }

  lemma ItemsIdempotent(fields: seq<string>, tgt: Project, src: Project)
    requires RebuildIfListed(src.srtItems, src.items, tgt.srtItems, tgt.items, NewWorldElement,
                             (s, p) => MergeItem(fields, s, p)).Ok?
    ensures var merge := (s, p) => MergeItem(fields, s, p);
      var once := RebuildIfListed(src.srtItems, src.items, tgt.srtItems, tgt.items, NewWorldElement, merge).value;
      RebuildIfListed(src.srtItems, src.items, once.0, once.1, NewWorldElement, merge) == Ok(once)
  {
    var merge := (s, p) => MergeItem(fields, s, p);
    forall k | 0 <= k < |src.srtItems| && src.srtItems[k] in src.items
      ensures IdempotentOn(merge, src.items[src.srtItems[k]], Prior(tgt.items, src.srtItems[k], NewWorldElement))
    {
      var s, p := src.items[src.srtItems[k]], Prior(tgt.items, src.srtItems[k], NewWorldElement);
      if MergeItem(fields, s, p).Ok? {
        MergeItemIdempotent(fields, s, p);
      }
    }
    RebuildIfListedIdempotent(src.srtItems, src.items, tgt.srtItems, tgt.items, NewWorldElement, merge);
  }

  lemma CharactersIdempotent(fields: seq<string>, tgt: Project, src: Project)
    requires RebuildIfListed(src.srtCharacters, src.characters, tgt.srtCharacters, tgt.characters, NewCharacter,
                             (s, p) => MergeCharacter(fields, s, p)).Ok?
    ensures var merge := (s, p) => MergeCharacter(fields, s, p);
      var once := RebuildIfListed(src.srtCharacters, src.characters, tgt.srtCharacters, tgt.characters, NewCharacter, merge).value;
      RebuildIfListed(src.srtCharacters, src.characters, once.0, once.1, NewCharacter, merge) == Ok(once)
  {
    var merge := (s, p) => MergeCharacter(fields, s, p);
    forall k | 0 <= k < |src.srtCharacters| && src.srtCharacters[k] in src.characters
      ensures IdempotentOn(merge, src.characters[src.srtCharacters[k]], Prior(tgt.characters, src.srtCharacters[k], NewCharacter))
    {
      var s, p := src.characters[src.srtCharacters[k]], Prior(tgt.characters, src.srtCharacters[k], NewCharacter);
      if MergeCharacter(fields, s, p).Ok? {
        MergeCharacterIdempotent(fields, s, p);
      }
    }
    RebuildIfListedIdempotent(src.srtCharacters, src.characters, tgt.srtCharacters, tgt.characters, NewCharacter, merge);
  }

  /** Merging the same source a second time changes nothing. */
  lemma MergeIdempotent(code: Code, fields: KwFields, tgt: Project, src: Project)
    requires Merge(code, fields, tgt, src).Ok?
    ensures Merge(code, fields, Merge(code, fields, tgt, src).value.novel, src) == Merge(code, fields, tgt, src)
  {
    var n := Merge(code, fields, tgt, src).value.novel;
    LocationsIdempotent(code, fields.location, tgt, src);
    ItemsIdempotent(fields.item, tgt, src);
    CharactersIdempotent(fields.character, tgt, src);
    SceneMapIdempotent(fields.scene, tgt.scenes, src.scenes, n.characters.Keys, n.locations.Keys, n.items.Keys);
    ChapterMapIdempotent(fields.chapter, tgt.chapters, src.chapters, src.scenes.Keys);
    MergeListsIdempotent(src.srtChapters, tgt.srtChapters);
    OverlayKwIdempotent(fields.project, src.kwVar, tgt.kwVar);
  }
}
