/** The "work in progress" HTML import (src/pywriter/html/html_import.py):
    level-one and level-two headings start chapters, the first paragraph
    of a chapter or after a scene divider starts a scene, and a comment at
    the very beginning of a scene gives its title. */
module HtmlImport {
  import opened Wrappers
  import opened Seqs
  import opened Strings
  import opened Ids
  import opened Novel
  import opened HtmlFile

  const SceneDivider := "* * *"

  /** Scenes with fewer words are outlines, longer ones drafts. */
  const LowWordCount := 10

  /** The title a leading comment gives its scene: the text between the
      first two title brackets if the comment has one, otherwise the
      comment without its leading comment-mark characters; stripped either
      way. */
  function CommentTitle(head: string): string {
    var t := if TitleBracket in head then Split(head, TitleBracket)[1] else LStripChars(head, CommentStart);
    Strip(t)
  }

  /** The scene a paragraph opens: titled "Scene" and its number, with
      status 1 until its paragraph ends. */
  function ParagraphScene(n: nat): (sc: Scene)
    ensures sc.title == Some("Scene " + NatToString(n)) && sc.status == Some(StatusOutline)
  {
    NewScene.(status := Some(StatusOutline), title := Some("Scene " + NatToString(n)))
  }

  /** Lines 51-92: the start tags. */
  function HandleStart(st: Reader, tag: string, attrs: seq<Attr>): (r: Result<Reader>)
    ensures tag == "h1" || tag == "h2" ==> r == Ok(OpenChapter(st, tag == "h1"))
    ensures tag == "p" && st.scId.None? && st.chId.Some? ==>
      r == OpenScene(st, ParagraphScene(st.scCount + 1))
    ensures tag == "p" && (st.scId.Some? || st.chId.None?) ==> r == Ok(st)
    ensures tag == "div" ==> r == Ok(CloseDivision(st))
    ensures tag == "meta" ==> r == Meta(st, attrs)
    ensures tag == "title" ==> r == Ok(st.(lines := []))
    ensures tag !in {"h1", "h2", "p", "div", "meta", "title"} ==> r == Ok(st)
  {
    if tag == "h1" || tag == "h2" then Ok(OpenChapter(st, tag == "h1"))
    else if tag == "p" then
      if st.scId.None? && st.chId.Some? then
        OpenScene(st, ParagraphScene(st.scCount + 1))
      else Ok(st)
    else if tag == "div" then Ok(CloseDivision(st))
    else if tag == "meta" then Meta(st, attrs)
    else if tag == "title" then Ok(st.(lines := []))
    else Ok(st)
  }

  /** Lines 94-114: the end tags. A paragraph end inside a scene makes the
      lines collected so far, closed by a line break, the scene's content,
      and rates the scene by its word count. */
  function HandleEnd(st: Reader, tag: string, words: string -> nat): (r: Result<Reader>)
    ensures tag == "p" && st.scId.None? ==> r == Ok(st.(lines := st.lines + ["\n"]))
    ensures tag == "p" && st.scId.Some? ==> (r.Err? <==> st.scId.value !in st.novel.scenes)
    ensures tag == "p" && st.scId.Some? && r.Ok? ==>
      var id := st.scId.value;
      id in r.value.novel.scenes &&
      var sc := r.value.novel.scenes[id];
      && r.value.(novel := st.novel) == st.(lines := st.lines + ["\n"])
      && r.value.novel == st.novel.(scenes := st.novel.scenes[id := sc])
      && sc.(sceneContent := st.novel.scenes[id].sceneContent, status := st.novel.scenes[id].status) == st.novel.scenes[id]
      && sc.sceneContent == Some(Concat(st.lines) + "\n")
      && (sc.status == Some(StatusOutline) <==> words(Concat(st.lines) + "\n") < LowWordCount)
      && (sc.status == Some(StatusDraft) <==> words(Concat(st.lines) + "\n") >= LowWordCount)
    ensures tag == "h1" || tag == "h2" ==> r == EndHeading(st)
    ensures tag == "title" ==> r == Ok(EndTitle(st))
    ensures tag !in {"p", "h1", "h2", "title"} ==> r == Ok(st)
  {
    if tag == "p" then
      var lines := st.lines + ["\n"];
      if st.scId.None? then Ok(st.(lines := lines))
      else if st.scId.value !in st.novel.scenes then Err(KeyError)
      else
        var content := Concat(lines);
        ConcatAppend(st.lines, "\n");
        var sc := st.novel.scenes[st.scId.value];
        var status := if words(content) < LowWordCount then StatusOutline else StatusDraft;
        Ok(st.(
          novel := st.novel.(scenes := st.novel.scenes[st.scId.value := sc.(sceneContent := Some(content), status := Some(status))]),
          lines := lines))
    else if tag == "h1" || tag == "h2" then EndHeading(st)
    else if tag == "title" then Ok(EndTitle(st))
    else Ok(st)
  }

  /** Lines 116-142: text. A scene divider closes the open scene;
      otherwise the stripped text is collected, except that a leading
      comment at the start of a scene becomes the scene's title and only
      what follows it is collected. Where the original's attempt fails (no
      comment end, no open scene) the text is collected whole. */
  function HandleData(st: Reader, data: string): (r: Reader)
    ensures st.scId.Some? && Contains(data, SceneDivider) ==> r == st.(scId := None)
    ensures !(st.scId.Some? && Contains(data, SceneDivider)) ==>
      && r.chId == st.chId && r.scId == st.scId
      && |r.lines| == |st.lines| + 1 && r.lines[..|st.lines|] == st.lines
      && r.novel.(scenes := st.novel.scenes) == st.novel
      && r.novel.scenes.Keys == st.novel.scenes.Keys
  {
    if st.scId.Some? && Contains(data, SceneDivider) then st.(scId := None)
    else
      var d := Strip(data);
      if st.lines == [] && StartsWith(d, CommentStart) then
        match SplitOnceStr(d, CommentEnd)
        case (_, None) => st.(lines := st.lines + [d])
        case (head, Some(rest)) =>
          if st.scId.None? || st.scId.value !in st.novel.scenes then st.(lines := st.lines + [d])
          else
            var sc := st.novel.scenes[st.scId.value];
            st.(
              novel := st.novel.(scenes := st.novel.scenes[st.scId.value := sc.(title := Some(CommentTitle(head)))]),
              lines := st.lines + [rest])
      else st.(lines := st.lines + [d])
  }

  function Step(st: Reader, e: Event, words: string -> nat): Result<Reader> {
    match e
    case StartTag(tag, attrs) => HandleStart(st, tag, attrs)
    case EndTag(tag) => HandleEnd(st, tag, words)
    case Text(data) => Ok(HandleData(st, data))
    case Comment(data) => Ok(HandleComment(st, data))
  }

  /** The events of a document, fed in order; the first failure ends it. */
  function Feed(st: Reader, events: seq<Event>, words: string -> nat): Result<Reader>
    decreases |events|
  {
    if |events| == 0 then Ok(st)
    else
      var prev :- Feed(st, events[..|events| - 1], words);
      Step(prev, events[|events| - 1], words)
  }

  /** The novel a document's events build, from a fresh reader. */
  function Read(events: seq<Event>, words: string -> nat): Result<Project> {
    var st :- Feed(NewReader, events, words);
    Ok(st.novel)
  }

  // ---------------------------------------------------------------------
  // Scene titles from comments

  /** Splitting on a character first met after `a` gives `a` first. */
  lemma SplitFirst(a: string, sep: char, b: string)
    requires sep !in a
    ensures Split(a + [sep] + b, sep) == [a] + Split(b, sep)
  {
    var s := a + [sep] + b;
    assert s[|a|] == sep;
    var i := IndexOfChar(s, sep);
    assert s[..|a|] == a;
    assert i == |a|;
    assert s[i + 1..] == b;
  }

  /** A title between brackets is taken as it stands, stripped. */
  lemma CommentTitleBracketed(a: string, x: string, b: string)
    requires TitleBracket !in a && TitleBracket !in x
    ensures CommentTitle(a + [TitleBracket] + x + [TitleBracket] + b) == Strip(x)
  {
    var s := a + [TitleBracket] + x + [TitleBracket] + b;
    assert s[|a|] == TitleBracket;
    assert s == a + [TitleBracket] + (x + [TitleBracket] + b);
    SplitFirst(a, TitleBracket, x + [TitleBracket] + b);
    SplitFirst(x, TitleBracket, b);
  }

  /** Without brackets, the comment's text is the title, stripped. */
  lemma CommentTitlePlain(t: string)
    requires TitleBracket !in t
    requires |t| == 0 || t[0] !in CommentStart
    ensures CommentTitle(CommentStart + t) == Strip(t)
  {
    var s := CommentStart + t;
    assert TitleBracket !in s;
    var r := LStripChars(s, CommentStart);
    assert s[0] in CommentStart && s[1] in CommentStart;
    assert |s| - |r| >= 2 by {
      if |r| > 0 {
        assert r[0] == s[|s| - |r|];
      }
    }
    assert |s| - |r| <= 2 by {
      if |t| > 0 {
        assert s[2] == t[0];
      }
    }
    assert r == t;
  }

  /** The first comment end of a text whose beginning holds none is the
      one after that beginning. */
  lemma CommentSplit(a: string, b: string)
    requires !Contains(a, CommentEnd)
    ensures SplitOnceStr(a + CommentEnd + b, CommentEnd) == (a, Some(b))
  {
    var s := a + CommentEnd + b;
    assert s[..|a|] == a;
    assert OccursAt(s, CommentEnd, |a|) by {
      assert s[|a|..|a| + 2] == CommentEnd;
    }
    forall k | 0 <= k < |a| ensures !OccursAt(s, CommentEnd, k) {
      if k + 2 <= |a| {
        assert !OccursAt(a, CommentEnd, k);
        assert s[k..k + 2] == a[k..k + 2];
      } else {
        assert s[k + 1] == '*';
      }
    }
    var i := Find(s, CommentEnd).value;
    assert i == |a|;
    assert s[i + 2..] == b;
  }

  /** A comment opening the first text of a scene titles the scene, and
      only what follows the comment is collected. */
  lemma TitleFromComment(st: Reader, t: string, rest: string)
    requires st.scId.Some? && st.scId.value in st.novel.scenes && st.lines == []
    requires !Contains(CommentStart + t, CommentEnd)
    requires !Contains(CommentStart + t + CommentEnd + rest, SceneDivider)
    requires |rest| == 0 || !IsPyWhitespace(rest[|rest| - 1])
    ensures var r := HandleData(st, CommentStart + t + CommentEnd + rest);
      && r.novel.scenes[st.scId.value].title == Some(CommentTitle(CommentStart + t))
      && r.lines == [rest]
  {
    var d := CommentStart + t + CommentEnd + rest;
    assert d[0] == '/';
    assert |rest| == 0 ==> d[|d| - 1] == '/';
    assert |rest| > 0 ==> d[|d| - 1] == rest[|rest| - 1];
    StripTrimmed(d);
    assert StartsWith(d, CommentStart);
    CommentSplit(CommentStart + t, rest);
  }

  /** Text that does not start a scene's collection is collected whole,
      stripped. */
  lemma TextCollected(st: Reader, data: string)
    requires !(st.scId.Some? && Contains(data, SceneDivider))
    requires st.lines != [] || !StartsWith(Strip(data), CommentStart)
    ensures HandleData(st, data) == st.(lines := st.lines + [Strip(data)])
  {
  }

  // ---------------------------------------------------------------------
  // The invariant

  /** The events the original fails on in a well-formed state. */
  predicate Fails(st: Reader, e: Event) {
    match e
    case StartTag(tag, attrs) => tag == "meta" && MetaFails(attrs)
    case EndTag(tag) => (tag == "h1" || tag == "h2") && st.chId.None?
    case _ => false
  }

  lemma KeepingStartWf(st: Reader, tag: string, attrs: seq<Attr>)
    requires Wf(st) && tag != "h1" && tag != "h2" && tag != "p"
    ensures HandleStart(st, tag, attrs).Err? <==> tag == "meta" && MetaFails(attrs)
    ensures HandleStart(st, tag, attrs).Ok? ==> Wf(HandleStart(st, tag, attrs).value)
  {
    var r := HandleStart(st, tag, attrs);
    if r.Ok? {
      ShapeWf(st, r.value);
    }
  }

  lemma ChapterStartWf(st: Reader, tag: string, attrs: seq<Attr>)
    requires Wf(st) && (tag == "h1" || tag == "h2")
    ensures HandleStart(st, tag, attrs).Ok? && Wf(HandleStart(st, tag, attrs).value)
  {
    OpenChapterWf(st, tag == "h1");
  }

  lemma ParagraphStartWf(st: Reader, attrs: seq<Attr>)
    requires Wf(st)
    ensures HandleStart(st, "p", attrs).Ok? && Wf(HandleStart(st, "p", attrs).value)
  {
    if st.scId.None? && st.chId.Some? {
      OpenSceneWf(st, ParagraphScene(st.scCount + 1));
      assert HandleStart(st, "p", attrs) == OpenScene(st, ParagraphScene(st.scCount + 1));
    } else {
      assert HandleStart(st, "p", attrs) == Ok(st);
    }
  }

  lemma HandleStartWf(st: Reader, tag: string, attrs: seq<Attr>)
    requires Wf(st)
    ensures HandleStart(st, tag, attrs).Err? <==> tag == "meta" && MetaFails(attrs)
    ensures HandleStart(st, tag, attrs).Ok? ==> Wf(HandleStart(st, tag, attrs).value)
  {
    if tag == "h1" || tag == "h2" {
      ChapterStartWf(st, tag, attrs);
    } else if tag == "p" {
      ParagraphStartWf(st, attrs);
    } else {
      KeepingStartWf(st, tag, attrs);
    }
  }

  lemma ParagraphEndWf(st: Reader, words: string -> nat)
    requires Wf(st)
    ensures HandleEnd(st, "p", words).Ok? && Wf(HandleEnd(st, "p", words).value)
  {
    ShapeWf(st, HandleEnd(st, "p", words).value);
  }

  lemma HeadingEndWf(st: Reader)
    requires Wf(st)
    ensures EndHeading(st).Err? <==> st.chId.None?
    ensures EndHeading(st).Ok? ==> Wf(EndHeading(st).value)
  {
    if st.chId.Some? {
      ShapeWf(st, EndHeading(st).value);
    }
  }

  lemma HandleEndWf(st: Reader, tag: string, words: string -> nat)
    requires Wf(st)
    ensures HandleEnd(st, tag, words).Err? <==> (tag == "h1" || tag == "h2") && st.chId.None?
    ensures HandleEnd(st, tag, words).Ok? ==> Wf(HandleEnd(st, tag, words).value)
  {
    if tag == "p" {
      ParagraphEndWf(st, words);
    } else if tag == "h1" || tag == "h2" {
      HeadingEndWf(st);
    } else if tag == "title" {
      ShapeWf(st, EndTitle(st));
    }
  }

  lemma HandleDataWf(st: Reader, data: string)
    requires Wf(st)
    ensures Wf(HandleData(st, data))
  {
    ShapeWf(st, HandleData(st, data));
  }

  /** Every step keeps the invariant, and fails exactly on a malformed
      `meta` tag or a heading end outside any chapter. */
  lemma StepWf(st: Reader, e: Event, words: string -> nat)
    requires Wf(st)
    ensures Step(st, e, words).Err? <==> Fails(st, e)
    ensures Step(st, e, words).Ok? ==> Wf(Step(st, e, words).value)
  {
    match e
    case StartTag(tag, attrs) => HandleStartWf(st, tag, attrs);
    case EndTag(tag) => HandleEndWf(st, tag, words);
    case Text(data) => HandleDataWf(st, data);
    case Comment(data) => ShapeWf(st, HandleComment(st, data));
  }

  lemma {:induction false} FeedWf(st: Reader, events: seq<Event>, words: string -> nat)
    requires Wf(st)
    ensures Feed(st, events, words).Ok? ==> Wf(Feed(st, events, words).value)
    decreases |events|
  {
    if |events| > 0 {
      FeedWf(st, events[..|events| - 1], words);
      var prev := Feed(st, events[..|events| - 1], words);
      if prev.Ok? {
        StepWf(prev.value, events[|events| - 1], words);
      }
    }
  }

  /** The novel read from any document numbers its chapters 1, 2, … in
      order and its scenes 1, 2, … in the order the chapters list them,
      each scene listed by exactly one chapter. */
  lemma ReadNumbersDensely(events: seq<Event>, words: string -> nat)
    requires Read(events, words).Ok?
    ensures var novel := Read(events, words).value;
      && novel.srtChapters == DenseIds(|novel.srtChapters|)
      && novel.chapters.Keys == Elems(novel.srtChapters)
      && ScenesOf(novel.chapters, novel.srtChapters) == DenseIds(|novel.scenes|)
      && novel.scenes.Keys == Elems(ScenesOf(novel.chapters, novel.srtChapters))
      && Distinct(ScenesOf(novel.chapters, novel.srtChapters))
  {
    NewReaderWf();
    FeedWf(NewReader, events, words);
    var st := Feed(NewReader, events, words).value;
    DenseIdsDistinct(st.scCount);
    assert |Elems(DenseIds(st.scCount))| == st.scCount by {
      DistinctCard(DenseIds(st.scCount));
    }
  }
}
