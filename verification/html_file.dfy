/** The event-driven HTML readers (src/pywriter/html/html_file.py and its
    two subclasses in html_import.py and html_outline.py).

    The HTML tokeniser reports start tags (lower-case name and attributes),
    end tags, text and comments in document order; each reader reacts to
    them by changing its state: the novel built so far, the text lines
    collected since the last reset, the open scene and chapter, and the two
    counters that hand out dense ids. This module holds what the readers
    share: the events, the state, the handlers both subclasses use, the
    generic chapter/scene division handler of the base class, and the
    invariant the two subclasses keep. */
module HtmlFile {
  import opened Wrappers
  import opened Seqs
  import opened Strings
  import opened Ids
  import opened Novel

  const CommentStart := "/*"
  const CommentEnd := "*/"
  const TitleBracket := '~'

  /** Scene status numbers: the positions of "Outline" and "Draft" in the
      scene class's status list. */
  const StatusOutline := 1
  const StatusDraft := 2

  /** A tag attribute: its name and its value, `None` for a bare attribute. */
  type Attr = (string, Option<string>)

  datatype Event =
    | StartTag(tag: string, attrs: seq<Attr>)
    | EndTag(tag: string)
    | Text(data: string)
    | Comment(data: string)

  datatype Reader = Reader(
    novel: Project,
    lines: seq<string>,
    scId: Option<string>,
    chId: Option<string>,
    chCount: nat,
    scCount: nat)

  const NewReader := Reader(NewProject, [], None, None, 0, 0)

  // ---------------------------------------------------------------------
  // The base class: chapters and scenes marked by division ids

  /** The number of digits `s` starts with. */
  function DigitRun(s: string): (n: nat)
    ensures n <= |s| && AllDigits(s[..n]) && (n == |s| || !IsDigit(s[n]))
    decreases |s|
  {
    if |s| > 0 && IsDigit(s[0]) then
      var n := 1 + DigitRun(s[1..]);
      assert s[..n] == [s[0]] + s[1..][..n - 1];
      n
    else 0
  }

  /** `re.search('[0-9]+', s).group()`: the leftmost run of digits, as far
      as it goes; `None` where the original calls `group` on no match. */
  function FirstNumber(s: string): (r: Option<string>)
    ensures r.None? <==> forall k | 0 <= k < |s| :: !IsDigit(s[k])
    ensures r.Some? ==> |r.value| > 0 && AllDigits(r.value)
    decreases |s|
  {
    if |s| == 0 then None
    else if IsDigit(s[0]) then Some(s[..DigitRun(s)])
    else
      var r := FirstNumber(s[1..]);
      assert forall k | 1 <= k < |s| :: s[k] == s[1..][k - 1];
      r
  }

  /** The number found is the first run of digits, whole. */
  lemma {:induction false} FirstNumberOf(pre: string, digits: string, post: string)
    requires forall k | 0 <= k < |pre| :: !IsDigit(pre[k])
    requires |digits| > 0 && AllDigits(digits)
    requires |post| == 0 || !IsDigit(post[0])
    ensures FirstNumber(pre + digits + post) == Some(digits)
    decreases |pre|
  {
    var s := pre + digits + post;
    if |pre| > 0 {
      assert s[1..] == pre[1..] + digits + post;
      FirstNumberOf(pre[1..], digits, post);
    } else {
      assert s == digits + post;
      DigitRunOf(digits, post);
    }
  }

  lemma {:induction false} DigitRunOf(digits: string, post: string)
    requires AllDigits(digits)
    requires |post| == 0 || !IsDigit(post[0])
    ensures DigitRun(digits + post) == |digits|
    decreases |digits|
  {
    if |digits| > 0 {
      assert (digits + post)[1..] == digits[1..] + post;
      DigitRunOf(digits[1..], post);
    } else {
      assert digits + post == post;
    }
  }

  /** The id value of a division's first attribute, when it starts with
      the prefix. */
  function DivisionValue(tag: string, attrs: seq<Attr>, prefix: string): Option<string> {
    if tag == "div" && |attrs| > 0 && attrs[0].0 == "id" && attrs[0].1.Some? && StartsWith(attrs[0].1.value, prefix)
    then Some(attrs[0].1.value) else None
  }

  /** Lines 130-140: a division whose first attribute is an id starting
      with "ScID" opens a scene in the current chapter, one starting with
      "ChID" opens a chapter; both take the id's first number. Every other
      start tag is ignored. */
  function DivisionStart(st: Reader, tag: string, attrs: seq<Attr>): (r: Result<Reader>)
    ensures tag != "div" || (|attrs| > 0 && attrs[0].0 != "id") ==> r == Ok(st)
    ensures r.Err? <==>
      || (tag == "div" && |attrs| == 0)
      || (tag == "div" && attrs[0].0 == "id" && attrs[0].1.None?)
      || (DivisionValue(tag, attrs, "ScID").Some? && FirstNumber(DivisionValue(tag, attrs, "ScID").value).None?)
      || (DivisionValue(tag, attrs, "ChID").Some? && FirstNumber(DivisionValue(tag, attrs, "ChID").value).None?)
      || (DivisionValue(tag, attrs, "ScID").Some? && (st.chId.None? || st.chId.value !in st.novel.chapters))
    ensures r.Ok? ==> r.value.lines == st.lines && r.value.chCount == st.chCount && r.value.scCount == st.scCount
    ensures r.Ok? && DivisionValue(tag, attrs, "ChID").Some? ==>
      var id := FirstNumber(DivisionValue(tag, attrs, "ChID").value).value;
      && r.value.chId == Some(id) && r.value.scId == st.scId
      && r.value.novel.chapters == st.novel.chapters[id := NewChapter]
      && r.value.novel.srtChapters == st.novel.srtChapters + [id]
      && r.value.novel.scenes == st.novel.scenes
    ensures r.Ok? && DivisionValue(tag, attrs, "ScID").Some? ==>
      var id := FirstNumber(DivisionValue(tag, attrs, "ScID").value).value;
      var cur := st.chId.value;
      && r.value.scId == Some(id) && r.value.chId == st.chId
      && r.value.novel.scenes == st.novel.scenes[id := NewScene]
      && r.value.novel.chapters.Keys == st.novel.chapters.Keys
      && r.value.novel.chapters[cur].srtScenes == st.novel.chapters[cur].srtScenes + [id]
      && (forall c | c in st.novel.chapters && c != cur :: r.value.novel.chapters[c] == st.novel.chapters[c])
      && r.value.novel.srtChapters == st.novel.srtChapters
  {
    if tag != "div" then Ok(st)
    else if |attrs| == 0 then Err(Uncaught("IndexError"))
    else if attrs[0].0 != "id" then Ok(st)
    else if attrs[0].1.None? then Err(Uncaught("AttributeError"))
    else
      var v := attrs[0].1.value;
      if StartsWith(v, "ScID") then
        match FirstNumber(v)
        case None => Err(Uncaught("AttributeError"))
        case Some(id) =>
          if st.chId.None? || st.chId.value !in st.novel.chapters then Err(KeyError)
          else
            var ch := st.novel.chapters[st.chId.value];
            var novel := st.novel.(
              scenes := st.novel.scenes[id := NewScene],
              chapters := st.novel.chapters[st.chId.value := ch.(srtScenes := ch.srtScenes + [id])]);
            Ok(st.(novel := novel, scId := Some(id)))
      else if StartsWith(v, "ChID") then
        match FirstNumber(v)
        case None => Err(Uncaught("AttributeError"))
        case Some(id) =>
          var novel := st.novel.(
            chapters := st.novel.chapters[id := NewChapter],
            srtChapters := st.novel.srtChapters + [id]);
          Ok(st.(novel := novel, chId := Some(id)))
      else Ok(st)
  }

  /** A chapter division followed by a scene division: the chapter is
      listed and holds the scene, which is current. */
  lemma DivisionsNest(st: Reader, ch: string, sc: string)
    requires |ch| > 0 && AllDigits(ch) && |sc| > 0 && AllDigits(sc)
    ensures
      var r1 := DivisionStart(st, "div", [("id", Some("ChID:" + ch))]);
      && r1.Ok?
      && var r2 := DivisionStart(r1.value, "div", [("id", Some("ScID:" + sc))]);
      && r2.Ok?
      && r2.value.chId == Some(ch) && r2.value.scId == Some(sc)
      && r2.value.novel.srtChapters == st.novel.srtChapters + [ch]
      && r2.value.novel.chapters[ch].srtScenes == [sc]
      && r2.value.novel.scenes == st.novel.scenes[sc := NewScene]
  {
    FirstNumberOf("ChID:", ch, "");
    assert "ChID:" + ch + "" == "ChID:" + ch;
    FirstNumberOf("ScID:", sc, "");
    assert "ScID:" + sc + "" == "ScID:" + sc;
  }

  /** Lines 150-151: a comment is collected, between comment marks, only
      while a scene is open. */
  function HandleComment(st: Reader, data: string): (r: Reader)
    ensures r.(lines := st.lines) == st
    ensures st.scId.None? ==> r.lines == st.lines
    ensures st.scId.Some? ==> r.lines == st.lines + [CommentStart + data + CommentEnd]
  {
    if st.scId.Some? then st.(lines := st.lines + [CommentStart + data + CommentEnd]) else st
  }

  // ---------------------------------------------------------------------
  // Handlers the two subclasses share

  /** An `h1` or `h2` start tag in either subclass: the next chapter id,
      with the level the heading gives and both chapter types 0, appended to
      the chapter order and made current; no scene is open and no line is
      collected. */
  function OpenChapter(st: Reader, h1: bool): (r: Reader)
  {
    var id := NatToString(st.chCount + 1);
    var ch := NewChapter.(chLevel := Some(if h1 then 1 else 0), oldType := Some(0), chType := Some(0));
    st.(
      novel := st.novel.(chapters := st.novel.chapters[id := ch], srtChapters := st.novel.srtChapters + [id]),
      lines := [], scId := None, chId := Some(id), chCount := st.chCount + 1)
  }

  /** The scene start of either subclass: the next scene id, with the
      given record, appended to the current chapter's scene list and made
      current; collecting starts afresh. Without a current chapter the
      original fails on the chapter lookup. */
  function OpenScene(st: Reader, scene: Scene): (r: Result<Reader>)
  {
    var id := NatToString(st.scCount + 1);
    if st.chId.None? || st.chId.value !in st.novel.chapters then Err(KeyError)
    else
      var ch := st.novel.chapters[st.chId.value];
      var novel := st.novel.(
        scenes := st.novel.scenes[id := scene],
        chapters := st.novel.chapters[st.chId.value := ch.(srtScenes := ch.srtScenes + [id])]);
      Ok(st.(novel := novel, lines := [], scId := Some(id), scCount := st.scCount + 1))
  }

  /** A division closes the open scene and chapter. */
  function CloseDivision(st: Reader): Reader {
    st.(scId := None, chId := None)
  }

  /** The attribute `meta` tags are matched on: the value of the first one,
      in lower case (`None` where the original fails). */
  function MetaKey(attrs: seq<Attr>): Result<string> {
    if |attrs| == 0 then Err(Uncaught("IndexError"))
    else if attrs[0].1.None? then Err(Uncaught("AttributeError"))
    else Ok(Lower(attrs[0].1.value))
  }

  /** The attributes of a `meta` tag the original fails on: none, a bare
      first one, or an author or description without a second one. */
  predicate MetaFails(attrs: seq<Attr>) {
    MetaKey(attrs).Err? || (MetaKey(attrs).value in {"author", "description"} && |attrs| < 2)
  }

  /** A `meta` tag sets the author or the description from the value of
      its second attribute. */
  function Meta(st: Reader, attrs: seq<Attr>): (r: Result<Reader>)
    ensures r.Err? <==> MetaFails(attrs)
    ensures r.Ok? ==> r.value.novel.(authorName := st.novel.authorName, desc := st.novel.desc) == st.novel
    ensures r.Ok? ==> r.value.(novel := st.novel) == st
    ensures r.Ok? && MetaKey(attrs).value == "author" ==> r.value.novel.authorName == attrs[1].1
    ensures r.Ok? && MetaKey(attrs).value == "description" ==> r.value.novel.desc == attrs[1].1
    ensures r.Ok? && MetaKey(attrs).value !in {"author", "description"} ==> r.value == st
  {
    var key :- MetaKey(attrs);
    if key == "author" then
      if |attrs| < 2 then Err(Uncaught("IndexError"))
      else Ok(st.(novel := st.novel.(authorName := attrs[1].1)))
    else if key == "description" then
      if |attrs| < 2 then Err(Uncaught("IndexError"))
      else Ok(st.(novel := st.novel.(desc := attrs[1].1)))
    else Ok(st)
  }

  /** A heading end: the collected lines become the current chapter's
      title and collecting starts afresh. */
  function EndHeading(st: Reader): (r: Result<Reader>)
    ensures r.Err? <==> st.chId.None? || st.chId.value !in st.novel.chapters
    ensures r.Err? ==> r.error == KeyError
    ensures r.Ok? ==>
      && r.value.lines == []
      && r.value.novel.chapters == st.novel.chapters[st.chId.value := st.novel.chapters[st.chId.value].(title := Some(Concat(st.lines)))]
      && r.value.novel.(chapters := st.novel.chapters) == st.novel
      && r.value.(novel := st.novel, lines := st.lines) == st
  {
    if st.chId.None? || st.chId.value !in st.novel.chapters then Err(KeyError)
    else
      var ch := st.novel.chapters[st.chId.value];
      Ok(st.(novel := st.novel.(chapters := st.novel.chapters[st.chId.value := ch.(title := Some(Concat(st.lines)))]), lines := []))
  }

  /** The end of the document title: the collected lines become the
      novel's title. */
  function EndTitle(st: Reader): (r: Reader)
    ensures r.novel.title == Some(Concat(st.lines))
    ensures r.(novel := st.novel) == st && r.novel.(title := st.novel.title) == st.novel
  {
    st.(novel := st.novel.(title := Some(Concat(st.lines))))
  }

  // ---------------------------------------------------------------------
  // The invariant both subclasses keep

  /** The scene lists of the chapters `order` names, one after the other. */
  function ScenesOf(chapters: map<string, Chapter>, order: seq<string>): seq<string>
    decreases |order|
  {
    if |order| == 0 then []
    else
      var id := order[|order| - 1];
      ScenesOf(chapters, order[..|order| - 1]) + (if id in chapters then chapters[id].srtScenes else [])
  }

  /** Chapters are "1", "2", … in order; scenes are "1", "2", … and, read
      chapter by chapter, come in that order; the current chapter is the
      last one, and a scene is open only inside it. */
  ghost predicate Wf(st: Reader) {
    && st.novel.srtChapters == DenseIds(st.chCount)
    && st.novel.chapters.Keys == Elems(DenseIds(st.chCount))
    && st.novel.scenes.Keys == Elems(DenseIds(st.scCount))
    && ScenesOf(st.novel.chapters, st.novel.srtChapters) == DenseIds(st.scCount)
    && (st.chId.Some? ==> st.chCount > 0 && st.chId.value == NatToString(st.chCount))
    && (st.scId.Some? ==> st.chId.Some? && st.scId.value in st.novel.scenes)
  }

  lemma NewReaderWf()
    ensures Wf(NewReader)
  {
  }

  /** Chapters with the same scene lists give the same scenes in order. */
  lemma {:induction false} ScenesOfFrame(a: map<string, Chapter>, b: map<string, Chapter>, order: seq<string>)
    requires forall id | id in order :: (id in a <==> id in b) && (id in a ==> a[id].srtScenes == b[id].srtScenes)
    ensures ScenesOf(a, order) == ScenesOf(b, order)
    decreases |order|
  {
    if |order| > 0 {
      ScenesOfFrame(a, b, order[..|order| - 1]);
    }
  }

  /** The shape of a state, apart from titles, descriptions and lines. */
  ghost predicate SameShape(st: Reader, r: Reader) {
    && r.novel.srtChapters == st.novel.srtChapters
    && r.novel.chapters.Keys == st.novel.chapters.Keys
    && (forall id | id in st.novel.chapters :: r.novel.chapters[id].srtScenes == st.novel.chapters[id].srtScenes)
    && r.novel.scenes.Keys == st.novel.scenes.Keys
    && r.chCount == st.chCount && r.scCount == st.scCount
    && (r.chId == st.chId || r.chId.None?)
    && (r.scId == st.scId || r.scId.None?)
    && (r.chId.None? ==> r.scId.None?)
  }

  /** A step that keeps the shape keeps the invariant. */
  lemma ShapeWf(st: Reader, r: Reader)
    requires Wf(st) && SameShape(st, r)
    ensures Wf(r)
  {
    ScenesOfFrame(st.novel.chapters, r.novel.chapters, st.novel.srtChapters);
  }

  /** Opening a chapter numbers it next. */
  lemma OpenChapterIds(st: Reader, h1: bool)
    requires Wf(st)
    ensures var r := OpenChapter(st, h1);
      && r.novel.srtChapters == DenseIds(r.chCount)
      && r.novel.chapters.Keys == Elems(DenseIds(r.chCount))
      && r.chId.value !in st.novel.chapters
  {
    DenseIdsNext(st.chCount);
    ElemsConcat(DenseIds(st.chCount), [NatToString(st.chCount + 1)]);
  }

  /** Opening a chapter adds no scene to the reading order. */
  lemma OpenChapterScenes(st: Reader, h1: bool)
    requires Wf(st)
    ensures var r := OpenChapter(st, h1);
      ScenesOf(r.novel.chapters, r.novel.srtChapters) == ScenesOf(st.novel.chapters, st.novel.srtChapters)
  {
    var r := OpenChapter(st, h1);
    var order := r.novel.srtChapters;
    DenseIdsNext(st.chCount);
    ScenesOfFrame(st.novel.chapters, r.novel.chapters, st.novel.srtChapters);
    assert order[..|order| - 1] == st.novel.srtChapters;
  }

  /** Opening a chapter keeps the invariant: its id is new and last, and
      it has no scene yet. */
  lemma OpenChapterWf(st: Reader, h1: bool)
    requires Wf(st)
    ensures Wf(OpenChapter(st, h1))
    ensures OpenChapter(st, h1).chId.value !in st.novel.chapters
    ensures OpenChapter(st, h1).novel.srtChapters == st.novel.srtChapters + [OpenChapter(st, h1).chId.value]
    ensures OpenChapter(st, h1).novel.chapters[OpenChapter(st, h1).chId.value].srtScenes == []
  {
    OpenChapterIds(st, h1);
    OpenChapterScenes(st, h1);
  }

  /** The current chapter of a well-formed state is the last one, and no
      other chapter has its id. */
  lemma CurrentIsLast(st: Reader)
    requires Wf(st) && st.chId.Some?
    ensures var order := st.novel.srtChapters;
      && |order| > 0 && order[|order| - 1] == st.chId.value
      && st.chId.value !in order[..|order| - 1]
  {
    var order := st.novel.srtChapters;
    DenseIdsDistinct(st.chCount);
    var init := order[..|order| - 1];
    forall k | 0 <= k < |init| ensures init[k] != st.chId.value {
      assert order[k] != order[|order| - 1];
    }
  }

  /** Opening a scene numbers it next. */
  lemma OpenSceneIds(st: Reader, scene: Scene)
    requires Wf(st) && st.chId.Some?
    ensures var r := OpenScene(st, scene);
      && r.Ok?
      && r.value.novel.scenes.Keys == Elems(DenseIds(r.value.scCount))
      && r.value.scId.value !in st.novel.scenes
  {
    DenseIdsNext(st.scCount);
    ElemsConcat(DenseIds(st.scCount), [NatToString(st.scCount + 1)]);
  }

  /** A scene appended to the last chapter comes last in reading order. */
  lemma ScenesOfAppend(chapters: map<string, Chapter>, order: seq<string>, id: string)
    requires |order| > 0 && order[|order| - 1] in chapters
    requires order[|order| - 1] !in order[..|order| - 1]
    ensures var cur := order[|order| - 1];
      ScenesOf(chapters[cur := chapters[cur].(srtScenes := chapters[cur].srtScenes + [id])], order)
      == ScenesOf(chapters, order) + [id]
  {
    var cur := order[|order| - 1];
    var after := chapters[cur := chapters[cur].(srtScenes := chapters[cur].srtScenes + [id])];
    ScenesOfFrame(chapters, after, order[..|order| - 1]);
  }

  /** Opening a scene appends it to the reading order. */
  lemma OpenSceneOrder(st: Reader, scene: Scene)
    requires Wf(st) && st.chId.Some?
    ensures var r := OpenScene(st, scene).value;
      ScenesOf(r.novel.chapters, r.novel.srtChapters) == DenseIds(r.scCount)
  {
    var order := st.novel.srtChapters;
    CurrentIsLast(st);
    assert st.chId.value in st.novel.chapters by {
      assert order[|order| - 1] in order;
    }
    AppendSceneOrder(st.novel.chapters, order, st.scCount);
  }

  /** Appending the next scene id to the last chapter's list extends the
      dense reading order by that id. */
  lemma AppendSceneOrder(chapters: map<string, Chapter>, order: seq<string>, n: nat)
    requires |order| > 0 && order[|order| - 1] in chapters
    requires order[|order| - 1] !in order[..|order| - 1]
    requires ScenesOf(chapters, order) == DenseIds(n)
    ensures var cur := order[|order| - 1];
      ScenesOf(chapters[cur := chapters[cur].(srtScenes := chapters[cur].srtScenes + [NatToString(n + 1)])], order)
      == DenseIds(n + 1)
  {
    ScenesOfAppend(chapters, order, NatToString(n + 1));
    DenseIdsNext(n);
  }

  /** Opening a scene keeps the invariant; with a current chapter it cannot
      fail, and the new id is the next scene number. */
  lemma OpenSceneWf(st: Reader, scene: Scene)
    requires Wf(st)
    ensures OpenScene(st, scene).Err? <==> st.chId.None?
    ensures OpenScene(st, scene).Ok? ==> Wf(OpenScene(st, scene).value)
    ensures OpenScene(st, scene).Ok? ==> OpenScene(st, scene).value.scId.value !in st.novel.scenes
  {
    if st.chId.Some? {
      OpenSceneIds(st, scene);
      OpenSceneOrder(st, scene);
    }
  }
}
