/** The novel data model that every reader fills in and the yWriter merge
    reconciles: records for locations and items, characters, scenes and
    chapters, and the project with string-keyed maps of them plus explicit
    order sequences.

    Every attribute the original leaves as `None` until some reader sets it is
    an `Option`. A record created by the original's class constructors is
    taken to have every attribute unset, an empty keyword-variable map and,
    for a chapter, an empty scene list. */
module Novel {
  import opened Wrappers

  /** Custom keyword variables of a record: field name to text, or `None`. */
  type KwVar = map<string, Option<string>>

  /** Python truthiness of an optional string: present and non-empty. */
  predicate Truthy(s: Option<string>) {
    s.Some? && |s.value| > 0
  }

  /** Python truthiness of an optional flag. */
  predicate IsTrue(b: Option<bool>) {
    b == Some(true)
  }

  /** A location or an item. */
  datatype WorldElement = WorldElement(
    title: Option<string>,
    desc: Option<string>,
    tags: Option<seq<string>>,
    aka: Option<string>,
    image: Option<string>,
    kwVar: KwVar)

  datatype Character = Character(
    title: Option<string>,
    desc: Option<string>,
    tags: Option<seq<string>>,
    aka: Option<string>,
    image: Option<string>,
    notes: Option<string>,
    bio: Option<string>,
    goals: Option<string>,
    fullName: Option<string>,
    isMajor: Option<bool>,
    kwVar: KwVar)

  datatype Scene = Scene(
    title: Option<string>,
    desc: Option<string>,
    sceneContent: Option<string>,
    isUnused: Option<bool>,
    isNotesScene: Option<bool>,
    isTodoScene: Option<bool>,
    status: Option<int>,
    sceneNotes: Option<string>,
    tags: Option<seq<string>>,
    field1: Option<string>,
    field2: Option<string>,
    field3: Option<string>,
    field4: Option<string>,
    appendToPrev: Option<bool>,
    date: Option<string>,
    time: Option<string>,
    minute: Option<string>,
    hour: Option<string>,
    day: Option<string>,
    lastsMinutes: Option<string>,
    lastsHours: Option<string>,
    lastsDays: Option<string>,
    isReactionScene: Option<bool>,
    isSubPlot: Option<bool>,
    goal: Option<string>,
    conflict: Option<string>,
    outcome: Option<string>,
    characters: Option<seq<string>>,
    locations: Option<seq<string>>,
    items: Option<seq<string>>,
    kwVar: KwVar)

  datatype Chapter = Chapter(
    title: Option<string>,
    desc: Option<string>,
    chLevel: Option<int>,
    oldType: Option<int>,
    chType: Option<int>,
    isUnused: Option<bool>,
    suppressChapterTitle: Option<bool>,
    suppressChapterBreak: Option<bool>,
    isTrash: Option<bool>,
    srtScenes: seq<string>,
    kwVar: KwVar)

  datatype Project = Project(
    title: Option<string>,
    desc: Option<string>,
    authorName: Option<string>,
    authorBio: Option<string>,
    fieldTitle1: Option<string>,
    fieldTitle2: Option<string>,
    fieldTitle3: Option<string>,
    fieldTitle4: Option<string>,
    kwVar: KwVar,
    chapters: map<string, Chapter>,
    srtChapters: seq<string>,
    scenes: map<string, Scene>,
    locations: map<string, WorldElement>,
    srtLocations: seq<string>,
    items: map<string, WorldElement>,
    srtItems: seq<string>,
    characters: map<string, Character>,
    srtCharacters: seq<string>)

  const NewWorldElement := WorldElement(None, None, None, None, None, map[])

  const NewCharacter := Character(None, None, None, None, None, None, None, None, None, None, map[])

  const NewScene := Scene(
    None, None, None, None, None, None, None, None, None, None, None, None, None, None,
    None, None, None, None, None, None, None, None, None, None, None, None, None,
    None, None, None, map[])

  const NewChapter := Chapter(None, None, None, None, None, None, None, None, None, [], map[])

  const NewProject := Project(
    None, None, None, None, None, None, None, None, map[],
    map[], [], map[], map[], [], map[], [], map[], [])
}
