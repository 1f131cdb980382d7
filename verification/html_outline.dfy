/** The outline HTML import (src/pywriter/html/html_outline.py):
    level-one and level-two headings start chapters, level-three headings
    start scenes, and the paragraphs describe the scene or, before the
    first scene, the chapter. */
module HtmlOutline {
  import opened Wrappers
  import opened Seqs
  import opened Strings
  import opened Ids
  import opened Novel
  import opened HtmlFile

  /** The scene a level-three heading opens: empty content, an outline. */
  const OutlineScene := NewScene.(sceneContent := Some(""), status := Some(StatusOutline))

  /** Lines 40-73: the start tags. */
  function HandleStart(st: Reader, tag: string, attrs: seq<Attr>): (r: Result<Reader>)
    ensures tag == "h1" || tag == "h2" ==> r == Ok(OpenChapter(st, tag == "h1"))
    ensures tag == "h3" ==> r == OpenScene(st, OutlineScene)
    ensures tag == "div" ==> r == Ok(CloseDivision(st))
    ensures tag == "meta" ==> r == Meta(st, attrs)
    ensures tag == "title" ==> r == Ok(st.(lines := []))
    ensures tag !in {"h1", "h2", "h3", "div", "meta", "title"} ==> r == Ok(st)
  {
    if tag == "h1" || tag == "h2" then Ok(OpenChapter(st, tag == "h1"))
    else if tag == "h3" then OpenScene(st, OutlineScene)
    else if tag == "div" then Ok(CloseDivision(st))
    else if tag == "meta" then Meta(st, attrs)
    else if tag == "title" then Ok(st.(lines := []))
    else Ok(st)
  }

  /** Lines 83-88: a paragraph end makes everything collected so far,
      closed by a line break, the description of the open scene or, if
      there is none, of the current chapter. */
  function EndParagraph(st: Reader): (r: Result<Reader>)
    ensures r.Err? <==>
      || (st.scId.Some? && st.scId.value !in st.novel.scenes)
      || (st.scId.None? && st.chId.Some? && st.chId.value !in st.novel.chapters)
    ensures r.Ok? ==> r.value.lines == st.lines + ["\n"]
    ensures r.Ok? ==> r.value.(novel := st.novel, lines := st.lines) == st
    ensures r.Ok? && st.scId.Some? ==>
      && r.value.novel.chapters == st.novel.chapters
      && r.value.novel.scenes == st.novel.scenes[st.scId.value := st.novel.scenes[st.scId.value].(desc := Some(Concat(st.lines) + "\n"))]
    ensures r.Ok? && st.scId.None? && st.chId.Some? ==>
      && r.value.novel.scenes == st.novel.scenes
      && r.value.novel.chapters == st.novel.chapters[st.chId.value := st.novel.chapters[st.chId.value].(desc := Some(Concat(st.lines) + "\n"))]
    ensures r.Ok? && st.scId.None? && st.chId.None? ==> r.value.novel == st.novel
    ensures r.Ok? ==> r.value.novel.(chapters := st.novel.chapters, scenes := st.novel.scenes) == st.novel
  {
    var lines := st.lines + ["\n"];
    ConcatAppend(st.lines, "\n");
    if st.scId.Some? then
      if st.scId.value !in st.novel.scenes then Err(KeyError)
      else
        var sc := st.novel.scenes[st.scId.value];
        Ok(st.(novel := st.novel.(scenes := st.novel.scenes[st.scId.value := sc.(desc := Some(Concat(lines)))]), lines := lines))
    else if st.chId.Some? then
      if st.chId.value !in st.novel.chapters then Err(KeyError)
      else
        var ch := st.novel.chapters[st.chId.value];
        Ok(st.(novel := st.novel.(chapters := st.novel.chapters[st.chId.value := ch.(desc := Some(Concat(lines)))]), lines := lines))
    else Ok(st.(lines := lines))
  }

  /** Lines 92-94: the end of a scene heading titles the open scene with
      what was collected, and collecting starts afresh. */
  function EndSceneHeading(st: Reader): (r: Result<Reader>)
    ensures r.Err? <==> st.scId.None? || st.scId.value !in st.novel.scenes
    ensures r.Ok? ==>
      && r.value.lines == []
      && r.value.novel.scenes == st.novel.scenes[st.scId.value := st.novel.scenes[st.scId.value].(title := Some(Concat(st.lines)))]
      && r.value.novel.(scenes := st.novel.scenes) == st.novel
      && r.value.(novel := st.novel, lines := st.lines) == st
  {
    if st.scId.None? || st.scId.value !in st.novel.scenes then Err(KeyError)
    else
      var sc := st.novel.scenes[st.scId.value];
      Ok(st.(novel := st.novel.(scenes := st.novel.scenes[st.scId.value := sc.(title := Some(Concat(st.lines)))]), lines := []))
  }

  /** Lines 75-96: the end tags. */
  function HandleEnd(st: Reader, tag: string): (r: Result<Reader>)
    ensures tag == "p" ==> r == EndParagraph(st)
    ensures tag == "h1" || tag == "h2" ==> r == EndHeading(st)
    ensures tag == "h3" ==> r == EndSceneHeading(st)
    ensures tag == "title" ==> r == Ok(EndTitle(st))
    ensures tag !in {"p", "h1", "h2", "h3", "title"} ==> r == Ok(st)
  {
    if tag == "p" then EndParagraph(st)
    else if tag == "h1" || tag == "h2" then EndHeading(st)
    else if tag == "h3" then EndSceneHeading(st)
    else if tag == "title" then Ok(EndTitle(st))
    else Ok(st)
  }

  /** Lines 98-106: all text is collected, stripped. */
  function HandleData(st: Reader, data: string): (r: Reader)
    ensures r.(lines := st.lines) == st
    ensures |r.lines| == |st.lines| + 1 && r.lines[..|st.lines|] == st.lines
    ensures r.lines[|st.lines|] == Strip(data)
  {
    st.(lines := st.lines + [Strip(data)])
  }

  function Step(st: Reader, e: Event): Result<Reader> {
    match e
    case StartTag(tag, attrs) => HandleStart(st, tag, attrs)
    case EndTag(tag) => HandleEnd(st, tag)
    case Text(data) => Ok(HandleData(st, data))
    case Comment(data) => Ok(HandleComment(st, data))
  }

  /** The events of a document, fed in order; the first failure ends it. */
  function Feed(st: Reader, events: seq<Event>): Result<Reader>
    decreases |events|
  {
    if |events| == 0 then Ok(st)
    else
      var prev :- Feed(st, events[..|events| - 1]);
      Step(prev, events[|events| - 1])
  }

  /** The novel a document's events build, from a fresh reader. */
  function Read(events: seq<Event>): Result<Project> {
    var st :- Feed(NewReader, events);
    Ok(st.novel)
  }

  // ---------------------------------------------------------------------
  // The invariant

  /** The events the original fails on in a well-formed state: a malformed
      `meta` tag, a chapter heading's end or a scene heading outside any
      chapter, a scene heading's end outside any scene. */
  predicate Fails(st: Reader, e: Event) {
    match e
    case StartTag(tag, attrs) => (tag == "meta" && MetaFails(attrs)) || (tag == "h3" && st.chId.None?)
    case EndTag(tag) => ((tag == "h1" || tag == "h2") && st.chId.None?) || (tag == "h3" && st.scId.None?)
    case _ => false
  }

  /** The start tags that keep the shape of the state. */
  lemma KeepingStartWf(st: Reader, tag: string, attrs: seq<Attr>)
    requires Wf(st) && tag != "h1" && tag != "h2" && tag != "h3"
    ensures HandleStart(st, tag, attrs).Err? <==> tag == "meta" && MetaFails(attrs)
    ensures HandleStart(st, tag, attrs).Ok? ==> Wf(HandleStart(st, tag, attrs).value)
  {
    var r := HandleStart(st, tag, attrs);
    if r.Ok? {
      ShapeWf(st, r.value);
    }
  }

  lemma SceneStartWf(st: Reader, attrs: seq<Attr>)
    requires Wf(st)
    ensures HandleStart(st, "h3", attrs).Err? <==> st.chId.None?
    ensures HandleStart(st, "h3", attrs).Ok? ==> Wf(HandleStart(st, "h3", attrs).value)
  {
    OpenSceneWf(st, OutlineScene);
  }

  lemma ChapterStartWf(st: Reader, tag: string, attrs: seq<Attr>)
    requires Wf(st) && (tag == "h1" || tag == "h2")
    ensures HandleStart(st, tag, attrs).Ok? && Wf(HandleStart(st, tag, attrs).value)
  {
    OpenChapterWf(st, tag == "h1");
  }

  lemma HandleStartWf(st: Reader, tag: string, attrs: seq<Attr>)
    requires Wf(st)
    ensures HandleStart(st, tag, attrs).Err? <==> Fails(st, StartTag(tag, attrs))
    ensures HandleStart(st, tag, attrs).Ok? ==> Wf(HandleStart(st, tag, attrs).value)
  {
    if tag == "h1" || tag == "h2" {
      ChapterStartWf(st, tag, attrs);
    } else if tag == "h3" {
      SceneStartWf(st, attrs);
    } else {
      KeepingStartWf(st, tag, attrs);
    }
  }

  lemma ParagraphEndWf(st: Reader)
    requires Wf(st)
    ensures EndParagraph(st).Ok? && Wf(EndParagraph(st).value)
  {
    ShapeWf(st, EndParagraph(st).value);
  }

  lemma HeadingEndWf(st: Reader)
    requires Wf(st)
    ensures EndHeading(st).Err? <==> st.chId.None?
    ensures EndHeading(st).Ok? ==> Wf(EndHeading(st).value)
  {
    if st.chId.Some? {
      ShapeWf(st, EndHeading(st).value);
    }
  }

  lemma SceneHeadingEndWf(st: Reader)
    requires Wf(st)
    ensures EndSceneHeading(st).Err? <==> st.scId.None?
    ensures EndSceneHeading(st).Ok? ==> Wf(EndSceneHeading(st).value)
  {
    if st.scId.Some? {
      ShapeWf(st, EndSceneHeading(st).value);
    }
  }

  lemma HandleEndWf(st: Reader, tag: string)
    requires Wf(st)
    ensures HandleEnd(st, tag).Err? <==> Fails(st, EndTag(tag))
    ensures HandleEnd(st, tag).Ok? ==> Wf(HandleEnd(st, tag).value)
  {
    if tag == "p" {
      ParagraphEndWf(st);
    } else if tag == "h1" || tag == "h2" {
      HeadingEndWf(st);
    } else if tag == "h3" {
      SceneHeadingEndWf(st);
    } else if tag == "title" {
      ShapeWf(st, EndTitle(st));
    }
  }

  /** Every step keeps the invariant, and fails exactly where `Fails`
      says. */
  lemma StepWf(st: Reader, e: Event)
    requires Wf(st)
    ensures Step(st, e).Err? <==> Fails(st, e)
    ensures Step(st, e).Ok? ==> Wf(Step(st, e).value)
  {
    match e
    case StartTag(tag, attrs) => HandleStartWf(st, tag, attrs);
    case EndTag(tag) => HandleEndWf(st, tag);
    case Text(data) => ShapeWf(st, HandleData(st, data));
    case Comment(data) => ShapeWf(st, HandleComment(st, data));
  }

  lemma {:induction false} FeedWf(st: Reader, events: seq<Event>)
    requires Wf(st)
    ensures Feed(st, events).Ok? ==> Wf(Feed(st, events).value)
    decreases |events|
  {
    if |events| > 0 {
      FeedWf(st, events[..|events| - 1]);
      var prev := Feed(st, events[..|events| - 1]);
      if prev.Ok? {
        StepWf(prev.value, events[|events| - 1]);
      }
    }
  }

  /** The novel read from any outline numbers its chapters 1, 2, … in
      order and its scenes 1, 2, … in the order the chapters list them,
      each scene listed by exactly one chapter. */
  lemma ReadNumbersDensely(events: seq<Event>)
    requires Read(events).Ok?
    ensures var novel := Read(events).value;
      && novel.srtChapters == DenseIds(|novel.srtChapters|)
      && novel.chapters.Keys == Elems(novel.srtChapters)
      && ScenesOf(novel.chapters, novel.srtChapters) == DenseIds(|novel.scenes|)
      && novel.scenes.Keys == Elems(ScenesOf(novel.chapters, novel.srtChapters))
      && Distinct(ScenesOf(novel.chapters, novel.srtChapters))
  {
    NewReaderWf();
    FeedWf(NewReader, events);
    var st := Feed(NewReader, events).value;
    DenseIdsDistinct(st.scCount);
    assert |Elems(DenseIds(st.scCount))| == st.scCount by {
      DistinctCard(DenseIds(st.scCount));
    }
  }

  /** Feeding two runs of events one after the other is feeding their
      concatenation. */
  lemma {:induction false} FeedConcat(st: Reader, a: seq<Event>, b: seq<Event>)
    requires Feed(st, a).Ok?
    ensures Feed(st, a + b) == Feed(Feed(st, a).value, b)
    decreases |b|
  {
    if |b| > 0 {
      assert (a + b)[..|a + b| - 1] == a + b[..|b| - 1];
      FeedConcat(st, a, b[..|b| - 1]);
    } else {
      assert a + b == a;
    }
  }

  /** Three events, fed one after the other. */
  lemma Feed3(st: Reader, e1: Event, e2: Event, e3: Event)
    ensures Feed(st, [e1, e2, e3]) == (var a :- Step(st, e1); var b :- Step(a, e2); Step(b, e3))
  {
    assert Feed(st, [e1]) == Step(st, e1) by {
      assert [e1][..0] == [];
    }
    assert Feed(st, [e1, e2]) == (var a :- Step(st, e1); Step(a, e2)) by {
      assert [e1, e2][..1] == [e1];
    }
    assert [e1, e2, e3][..2] == [e1, e2];
  }

  lemma StepText(st: Reader, data: string)
    ensures Step(st, Text(data)) == Ok(HandleData(st, data))
  {
  }

  lemma StepStart(st: Reader, tag: string)
    ensures Step(st, StartTag(tag, [])) == HandleStart(st, tag, [])
  {
  }

  lemma StepEnd(st: Reader, tag: string)
    ensures Step(st, EndTag(tag)) == HandleEnd(st, tag)
  {
  }

  /** The handlers a heading with its text goes through. */
  lemma HeadingSteps(st: Reader, title: string)
    ensures Feed(st, [StartTag("h1", []), Text(title), EndTag("h1")])
         == EndHeading(HandleData(OpenChapter(st, true), title))
  {
    var s1 := OpenChapter(st, true);
    StepStart(st, "h1");
    StepText(s1, title);
    StepEnd(HandleData(s1, title), "h1");
    Feed3(st, StartTag("h1", []), Text(title), EndTag("h1"));
  }

  /** A heading with its text: the chapter opened is titled with it. */
  lemma HeadingRun(st: Reader, title: string)
    ensures var r := Feed(st, [StartTag("h1", []), Text(title), EndTag("h1")]);
      && r.Ok?
      && r.value.chId == Some(NatToString(st.chCount + 1))
      && r.value.scId.None? && r.value.lines == []
      && r.value.novel.srtChapters == st.novel.srtChapters + [r.value.chId.value]
      && r.value.novel.chapters[r.value.chId.value].title == Some(Strip(title))
      && r.value.novel.chapters[r.value.chId.value].srtScenes == []
      && r.value.scCount == st.scCount
  {
    HeadingSteps(st, title);
    var s2 := HandleData(OpenChapter(st, true), title);
    assert Concat(s2.lines) == Strip(title) by { ConcatAppend([], Strip(title)); }
  }

  /** The handlers a paragraph goes through. */
  lemma ParagraphSteps(st: Reader, text: string)
    ensures Feed(st, [StartTag("p", []), Text(text), EndTag("p")])
         == EndParagraph(HandleData(st, text))
  {
    StepStart(st, "p");
    StepText(st, text);
    StepEnd(HandleData(st, text), "p");
    Feed3(st, StartTag("p", []), Text(text), EndTag("p"));
  }

  /** A paragraph outside any scene describes the current chapter. */
  lemma ChapterParagraph(st: Reader, text: string)
    requires st.chId.Some? && st.chId.value in st.novel.chapters && st.scId.None? && st.lines == []
    ensures var r := Feed(st, [StartTag("p", []), Text(text), EndTag("p")]);
      && r.Ok?
      && r.value.chId == st.chId && r.value.scId.None?
      && r.value.novel.srtChapters == st.novel.srtChapters
      && r.value.novel.chapters == st.novel.chapters[st.chId.value := st.novel.chapters[st.chId.value].(desc := Some(Strip(text) + "\n"))]
      && r.value.scCount == st.scCount
  {
    ParagraphSteps(st, text);
    var s2 := HandleData(st, text);
    assert Concat(s2.lines) == Strip(text) by { ConcatAppend([], Strip(text)); }
  }

  /** The handlers a scene heading with its text goes through. */
  lemma SceneHeadingSteps(st: Reader, title: string)
    requires st.chId.Some? && st.chId.value in st.novel.chapters
    ensures OpenScene(st, OutlineScene).Ok?
    ensures Feed(st, [StartTag("h3", []), Text(title), EndTag("h3")])
         == EndSceneHeading(HandleData(OpenScene(st, OutlineScene).value, title))
  {
    var s1 := OpenScene(st, OutlineScene).value;
    StepStart(st, "h3");
    StepText(s1, title);
    StepEnd(HandleData(s1, title), "h3");
    Feed3(st, StartTag("h3", []), Text(title), EndTag("h3"));
  }

  /** A scene heading with its text: a scene so titled, last of the
      current chapter. */
  lemma SceneHeadingRun(st: Reader, title: string)
    requires st.chId.Some? && st.chId.value in st.novel.chapters
    ensures var r := Feed(st, [StartTag("h3", []), Text(title), EndTag("h3")]);
      && r.Ok?
      && r.value.scId == Some(NatToString(st.scCount + 1))
      && r.value.novel.scenes[r.value.scId.value].title == Some(Strip(title))
      && r.value.novel.srtChapters == st.novel.srtChapters
      && r.value.novel.chapters == st.novel.chapters[st.chId.value :=
           st.novel.chapters[st.chId.value].(srtScenes := st.novel.chapters[st.chId.value].srtScenes + [r.value.scId.value])]
  {
    SceneHeadingSteps(st, title);
    var s2 := HandleData(OpenScene(st, OutlineScene).value, title);
    assert Concat(s2.lines) == Strip(title) by { ConcatAppend([], Strip(title)); }
  }

  /** A first chapter heading and its description. */
  lemma FirstChapter(title: string, text: string)
    ensures var r := Feed(NewReader, [StartTag("h1", []), Text(title), EndTag("h1")]
                                   + [StartTag("p", []), Text(text), EndTag("p")]);
      && r.Ok?
      && r.value.chId == Some("1") && r.value.scCount == 0
      && r.value.novel.srtChapters == ["1"]
      && "1" in r.value.novel.chapters
      && r.value.novel.chapters["1"].title == Some(Strip(title))
      && r.value.novel.chapters["1"].desc == Some(Strip(text) + "\n")
      && r.value.novel.chapters["1"].srtScenes == []
  {
    var a := [StartTag("h1", []), Text(title), EndTag("h1")];
    var b := [StartTag("p", []), Text(text), EndTag("p")];
    var r1 := Feed(NewReader, a);
    assert r1.Ok? && r1.value.chId == Some("1") && r1.value.scCount == 0 && r1.value.scId.None?
      && r1.value.lines == [] && r1.value.novel.srtChapters == ["1"] && "1" in r1.value.novel.chapters
      && r1.value.novel.chapters["1"].title == Some(Strip(title))
      && r1.value.novel.chapters["1"].srtScenes == [] by {
      assert NatToString(1) == "1";
      HeadingRun(NewReader, title);
    }
    var r2 := Feed(r1.value, b);
    assert r2.Ok? && r2.value.chId == Some("1") && r2.value.scCount == 0
      && r2.value.novel.srtChapters == ["1"] && "1" in r2.value.novel.chapters
      && r2.value.novel.chapters["1"] == r1.value.novel.chapters["1"].(desc := Some(Strip(text) + "\n")) by {
      ChapterParagraph(r1.value, text);
    }
    FeedConcat(NewReader, a, b);
  }

  /** An outline of one chapter with a description and one scene. */
  lemma OutlineExample(title: string, text: string, scene: string)
    ensures var r := Read([StartTag("h1", []), Text(title), EndTag("h1")]
                        + [StartTag("p", []), Text(text), EndTag("p")]
                        + [StartTag("h3", []), Text(scene), EndTag("h3")]);
      && r.Ok?
      && r.value.srtChapters == ["1"]
      && "1" in r.value.chapters && "1" in r.value.scenes
      && r.value.chapters["1"].title == Some(Strip(title))
      && r.value.chapters["1"].desc == Some(Strip(text) + "\n")
      && r.value.chapters["1"].srtScenes == ["1"]
      && r.value.scenes["1"].title == Some(Strip(scene))
  {
    var ab := [StartTag("h1", []), Text(title), EndTag("h1")] + [StartTag("p", []), Text(text), EndTag("p")];
    var c := [StartTag("h3", []), Text(scene), EndTag("h3")];
    assert NatToString(1) == "1";
    FirstChapter(title, text);
    SceneHeadingRun(Feed(NewReader, ab).value, scene);
    FeedConcat(NewReader, ab, c);
  }
}
