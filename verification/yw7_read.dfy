/** Post-processing of a read yWriter 7 project (src/pywriter/yw/yw7_file.py):
    scenes inherit the to-do, notes and unused state of the chapter that lists
    them, tag lists are stripped, and custom keyword variables can be reset. */
module Yw7Read {
  import opened Wrappers
  import opened Seqs
  import opened Novel
  import opened Strings

  /** What a chapter passes on to the scenes it lists. */
  datatype Flag = ToDo | Notes | Unused | NoFlag

  /** A to-do chapter (type 2) wins over a notes chapter (type 1), which wins
      over an unused chapter of any other type. */
  function ChapterFlag(ch: Chapter): (f: Flag)
    ensures f == ToDo <==> ch.chType == Some(2)
    ensures f == Notes <==> ch.chType == Some(1)
    ensures f == Unused <==> ch.chType != Some(2) && ch.chType != Some(1) && IsTrue(ch.isUnused)
  {
    if ch.chType == Some(2) then ToDo
    else if ch.chType == Some(1) then Notes
    else if IsTrue(ch.isUnused) then Unused
    else NoFlag
  }

  /** A scene with the chosen flags set to true and the rest as they were. */
  function Raise(s: Scene, todo: bool, notes: bool, unused: bool): Scene {
    s.(isTodoScene := if todo then Some(true) else s.isTodoScene,
       isNotesScene := if notes then Some(true) else s.isNotesScene,
       isUnused := if unused then Some(true) else s.isUnused)
  }

  function Mark(s: Scene, f: Flag): Scene {
    Raise(s, f == ToDo, f == Notes, f != NoFlag)
  }

  /** Mark every listed scene; a listed id with no scene raises `KeyError`. */
  function MarkAll(ids: seq<string>, scenes: map<string, Scene>, f: Flag): (r: Result<map<string, Scene>>)
    ensures r.Ok? <==> forall k | 0 <= k < |ids| :: ids[k] in scenes
    ensures r.Err? ==> r.error == KeyError
    ensures r.Ok? ==> r.value.Keys == scenes.Keys
    ensures r.Ok? ==> forall id | id in scenes :: r.value[id] == if id in ids then Mark(scenes[id], f) else scenes[id]
  {
    if |ids| == 0 then Ok(scenes)
    else if ids[0] !in scenes then Err(KeyError)
    else MarkAll(ids[1..], scenes[ids[0] := Mark(scenes[ids[0]], f)], f)
  }

  /** The loop over the chapters in `order`, the dictionary's iteration order. */
  function InheritFrom(chapters: map<string, Chapter>, order: seq<string>, scenes: map<string, Scene>): Result<map<string, Scene>>
    requires Elems(order) <= chapters.Keys
  {
    if |order| == 0 then Ok(scenes)
    else
      assert order[0] in Elems(order);
      var ch := chapters[order[0]];
      var next :- if ChapterFlag(ch) == NoFlag then Ok(scenes) else MarkAll(ch.srtScenes, scenes, ChapterFlag(ch));
      assert Elems(order[1..]) <= Elems(order);
      InheritFrom(chapters, order[1..], next)
  }

  function InheritFlags(chapters: map<string, Chapter>, order: seq<string>, scenes: map<string, Scene>): Result<map<string, Scene>>
    requires Elems(order) == chapters.Keys
  {
    InheritFrom(chapters, order, scenes)
  }

  /** Some chapter of `within` passing on `f` lists the scene `id`. */
  predicate ListedWith(chapters: map<string, Chapter>, within: set<string>, id: string, f: Flag) {
    exists c | c in within && c in chapters :: ChapterFlag(chapters[c]) == f && id in chapters[c].srtScenes
  }

  /** Some chapter of `within` passing on any flag lists the scene `id`. */
  predicate ListedFlagged(chapters: map<string, Chapter>, within: set<string>, id: string) {
    exists c | c in within && c in chapters :: ChapterFlag(chapters[c]) != NoFlag && id in chapters[c].srtScenes
  }

  /** Every scene a flag-passing chapter of `within` lists exists. */
  predicate Resolves(chapters: map<string, Chapter>, within: set<string>, scenes: map<string, Scene>) {
    forall c | c in within && c in chapters && ChapterFlag(chapters[c]) != NoFlag ::
      forall k | 0 <= k < |chapters[c].srtScenes| :: chapters[c].srtScenes[k] in scenes
  }

  /** The scenes with the flags the chapters of `within` pass on: the reference
      definition, independent of any order. */
  function Inherited(chapters: map<string, Chapter>, within: set<string>, scenes: map<string, Scene>): map<string, Scene> {
    map id | id in scenes ::
      Raise(scenes[id], ListedWith(chapters, within, id, ToDo), ListedWith(chapters, within, id, Notes),
            ListedFlagged(chapters, within, id))
  }

  lemma InheritedNone(chapters: map<string, Chapter>, scenes: map<string, Scene>)
    ensures Inherited(chapters, {}, scenes) == scenes
  {
  }

  /** Marking the scenes of one more chapter adds it to the flagging chapters. */
  lemma InheritedStep(chapters: map<string, Chapter>, done: set<string>, c: string, base: map<string, Scene>)
    requires c in chapters && ChapterFlag(chapters[c]) != NoFlag
    requires forall k | 0 <= k < |chapters[c].srtScenes| :: chapters[c].srtScenes[k] in base
    ensures MarkAll(chapters[c].srtScenes, Inherited(chapters, done, base), ChapterFlag(chapters[c]))
         == Ok(Inherited(chapters, done + {c}, base))
  {
    var ch := chapters[c];
    var f := ChapterFlag(ch);
    var before := Inherited(chapters, done, base);
    var after := Inherited(chapters, done + {c}, base);
    var r := MarkAll(ch.srtScenes, before, f);
    assert r.Ok?;
    forall id | id in base ensures r.value[id] == after[id] {
      InheritedAt(chapters, done, c, base, id);
    }
    assert r.value == after;
  }

  /** One scene after one more flag-passing chapter joins: marked when that chapter lists it, else as before. */
  lemma InheritedAt(chapters: map<string, Chapter>, done: set<string>, c: string, base: map<string, Scene>, id: string)
    requires c in chapters && ChapterFlag(chapters[c]) != NoFlag && id in base
    ensures var before := Inherited(chapters, done, base)[id];
      Inherited(chapters, done + {c}, base)[id]
        == if id in chapters[c].srtScenes then Mark(before, ChapterFlag(chapters[c])) else before
  {
    var f := ChapterFlag(chapters[c]);
    if id in chapters[c].srtScenes {
      assert ListedWith(chapters, done + {c}, id, f);
      assert ListedFlagged(chapters, done + {c}, id);
    } else {
      assert ListedWith(chapters, done + {c}, id, ToDo) == ListedWith(chapters, done, id, ToDo);
      assert ListedWith(chapters, done + {c}, id, Notes) == ListedWith(chapters, done, id, Notes);
      assert ListedFlagged(chapters, done + {c}, id) == ListedFlagged(chapters, done, id);
    }
  }

  /** A chapter passing on nothing changes nothing. */
  lemma InheritedSkip(chapters: map<string, Chapter>, done: set<string>, c: string, base: map<string, Scene>)
    requires c in chapters && ChapterFlag(chapters[c]) == NoFlag
    ensures Inherited(chapters, done + {c}, base) == Inherited(chapters, done, base)
  {
    forall id | id in base
      ensures ListedWith(chapters, done + {c}, id, ToDo) == ListedWith(chapters, done, id, ToDo)
      ensures ListedWith(chapters, done + {c}, id, Notes) == ListedWith(chapters, done, id, Notes)
      ensures ListedFlagged(chapters, done + {c}, id) == ListedFlagged(chapters, done, id)
    {
    }
  }

  lemma {:induction false} InheritFromSpec(chapters: map<string, Chapter>, order: seq<string>, done: set<string>,
                                           base: map<string, Scene>)
    requires Elems(order) <= chapters.Keys
    ensures InheritFrom(chapters, order, Inherited(chapters, done, base)).Ok? <==> Resolves(chapters, Elems(order), base)
    ensures InheritFrom(chapters, order, Inherited(chapters, done, base)).Ok? ==>
      InheritFrom(chapters, order, Inherited(chapters, done, base)).value == Inherited(chapters, done + Elems(order), base)
    decreases |order|
  {
    if |order| == 0 {
      assert done + Elems(order) == done;
    } else {
      var c := order[0];
      assert Elems(order) == {c} + Elems(order[1..]) by {
        assert order == [c] + order[1..];
        ElemsConcat([c], order[1..]);
      }
      assert done + Elems(order) == (done + {c}) + Elems(order[1..]);
      var ch := chapters[c];
      InheritFromSpec(chapters, order[1..], done + {c}, base);
      if ChapterFlag(ch) == NoFlag {
        InheritedSkip(chapters, done, c, base);
      } else if forall k | 0 <= k < |ch.srtScenes| :: ch.srtScenes[k] in base {
        InheritedStep(chapters, done, c, base);
      } else {
        assert !Resolves(chapters, Elems(order), base);
      }
    }
  }

  /** The pass succeeds exactly when every scene a flag-passing chapter lists
      exists, and then every scene carries the flags of all chapters listing
      it, whatever the order the chapters are visited in. */
  lemma InheritFlagsSpec(chapters: map<string, Chapter>, order: seq<string>, scenes: map<string, Scene>)
    requires Elems(order) == chapters.Keys
    ensures InheritFlags(chapters, order, scenes).Ok? <==> Resolves(chapters, chapters.Keys, scenes)
    ensures InheritFlags(chapters, order, scenes).Ok? ==>
      InheritFlags(chapters, order, scenes).value == Inherited(chapters, chapters.Keys, scenes)
  {
    InheritedNone(chapters, scenes);
    InheritFromSpec(chapters, order, {}, scenes);
  }

  /** A scene listed by a to-do chapter ends up to-do and unused, one listed by
      a notes chapter ends up notes and unused, one listed by another unused
      chapter ends up unused; a scene no such chapter lists keeps its flags. */
  lemma InheritFlagsSets(chapters: map<string, Chapter>, order: seq<string>, scenes: map<string, Scene>,
                         c: string, id: string)
    requires Elems(order) == chapters.Keys && InheritFlags(chapters, order, scenes).Ok?
    requires id in scenes
    ensures var r := InheritFlags(chapters, order, scenes).value;
      && id in r
      && (c in chapters && id in chapters[c].srtScenes && chapters[c].chType == Some(2) ==>
            r[id].isTodoScene == Some(true) && r[id].isUnused == Some(true))
      && (c in chapters && id in chapters[c].srtScenes && chapters[c].chType == Some(1) ==>
            r[id].isNotesScene == Some(true) && r[id].isUnused == Some(true))
      && (c in chapters && id in chapters[c].srtScenes && IsTrue(chapters[c].isUnused) ==> r[id].isUnused == Some(true))
      && (!ListedFlagged(chapters, chapters.Keys, id) ==> r[id] == scenes[id])
  {
    InheritFlagsSpec(chapters, order, scenes);
    if c in chapters && id in chapters[c].srtScenes && ChapterFlag(chapters[c]) != NoFlag {
      assert ListedWith(chapters, chapters.Keys, id, ChapterFlag(chapters[c]));
      assert ListedFlagged(chapters, chapters.Keys, id);
    }
  }

  /** `_strip_spaces`: every line with surrounding whitespace removed. */
  function StripSpaces(lines: seq<string>): (r: seq<string>)
    ensures |r| == |lines|
    ensures forall k | 0 <= k < |r| :: |r[k]| > 0 ==> !IsPyWhitespace(r[k][0]) && !IsPyWhitespace(r[k][|r[k]| - 1])
    ensures forall k | 0 <= k < |r| :: r[k] == Strip(lines[k])
  {
    seq(|lines|, k requires 0 <= k < |lines| => Strip(lines[k]))
  }

  lemma StripSpacesIdempotent(lines: seq<string>)
    ensures StripSpaces(StripSpaces(lines)) == StripSpaces(lines)
  {
    forall k | 0 <= k < |lines| ensures Strip(Strip(lines[k])) == Strip(lines[k]) {
      StripIdempotent(lines[k]);
    }
  }

  /** Clear the listed keyword variables that hold non-empty text; report
      whether any did. A listed field the map lacks raises `KeyError`. */
  function ResetKw(fields: seq<string>, kw: KwVar): (r: Result<(KwVar, bool)>)
    ensures r.Ok? <==> forall k | 0 <= k < |fields| :: fields[k] in kw
    ensures r.Err? ==> r.error == KeyError
    ensures r.Ok? ==> r.value.0.Keys == kw.Keys
    ensures r.Ok? ==> forall f | f in kw ::
      r.value.0[f] == if f in fields && Truthy(kw[f]) then Some("") else kw[f]
    ensures r.Ok? ==> (r.value.1 <==> exists k | 0 <= k < |fields| :: Truthy(kw[fields[k]]))
  {
    if |fields| == 0 then Ok((kw, false))
    else
      var f := fields[0];
      if f !in kw then Err(KeyError)
      else
        var next := if Truthy(kw[f]) then kw[f := Some("")] else kw;
        var rest :- ResetKw(fields[1..], next);
        assert forall k | 0 <= k < |fields[1..]| :: Truthy(next[fields[1..][k]]) ==> Truthy(kw[fields[1..][k]]);
        Ok((rest.0, rest.1 || Truthy(kw[f])))
  }

  /** Reset the keyword variables of every record of a map. */
  function ResetEach<E>(fields: seq<string>, m: map<string, E>, kwOf: E -> KwVar, withKw: (E, KwVar) -> E)
    : (r: Result<(map<string, E>, bool)>)
    ensures r.Ok? <==> forall id | id in m :: ResetKw(fields, kwOf(m[id])).Ok?
    ensures r.Err? ==> r.error == KeyError
    ensures r.Ok? ==> r.value.0.Keys == m.Keys
    ensures r.Ok? ==> forall id | id in m :: r.value.0[id] == withKw(m[id], ResetKw(fields, kwOf(m[id])).value.0)
    ensures r.Ok? ==> (r.value.1 <==> exists id | id in m :: ResetKw(fields, kwOf(m[id])).value.1)
  {
    if forall id | id in m :: ResetKw(fields, kwOf(m[id])).Ok? then
      var out := map id | id in m :: withKw(m[id], ResetKw(fields, kwOf(m[id])).value.0);
      assert out.Keys == m.Keys;
      Ok((out, exists id | id in m :: ResetKw(fields, kwOf(m[id])).value.1))
    else Err(KeyError)
  }

  /** `reset_custom_variables` with the project, chapter and scene field lists. */
  function ResetCustomVariables(prjFields: seq<string>, chpFields: seq<string>, scnFields: seq<string>, p: Project)
    : (r: Result<(Project, bool)>)
    ensures r.Ok? <==>
      && (forall k | 0 <= k < |prjFields| :: prjFields[k] in p.kwVar)
      && (forall id | id in p.chapters :: forall k | 0 <= k < |chpFields| :: chpFields[k] in p.chapters[id].kwVar)
      && (forall id | id in p.scenes :: forall k | 0 <= k < |scnFields| :: scnFields[k] in p.scenes[id].kwVar)
    ensures r.Err? ==> r.error == KeyError
    ensures r.Ok? ==> r.value.0.(kwVar := p.kwVar, chapters := p.chapters, scenes := p.scenes) == p
    ensures r.Ok? ==> r.value.0.kwVar == ResetKw(prjFields, p.kwVar).value.0
    ensures r.Ok? ==> r.value.0.chapters.Keys == p.chapters.Keys && r.value.0.scenes.Keys == p.scenes.Keys
    ensures r.Ok? ==> forall id | id in p.chapters ::
      r.value.0.chapters[id] == p.chapters[id].(kwVar := ResetKw(chpFields, p.chapters[id].kwVar).value.0)
    ensures r.Ok? ==> forall id | id in p.scenes ::
      r.value.0.scenes[id] == p.scenes[id].(kwVar := ResetKw(scnFields, p.scenes[id].kwVar).value.0)
    ensures r.Ok? ==> (r.value.1 <==>
      || ResetKw(prjFields, p.kwVar).value.1
      || (exists id | id in p.chapters :: ResetKw(chpFields, p.chapters[id].kwVar).value.1)
      || (exists id | id in p.scenes :: ResetKw(scnFields, p.scenes[id].kwVar).value.1))
  {
    var prj :- ResetKw(prjFields, p.kwVar);
    var chs :- ResetEach(chpFields, p.chapters, (c: Chapter) => c.kwVar, (c: Chapter, kw: KwVar) => c.(kwVar := kw));
    var scs :- ResetEach(scnFields, p.scenes, (s: Scene) => s.kwVar, (s: Scene, kw: KwVar) => s.(kwVar := kw));
    Ok((p.(kwVar := prj.0, chapters := chs.0, scenes := scs.0), prj.1 || chs.1 || scs.1))
  }

  lemma ResetKwAgain(fields: seq<string>, kw: KwVar)
    requires ResetKw(fields, kw).Ok?
    ensures ResetKw(fields, ResetKw(fields, kw).value.0) == Ok((ResetKw(fields, kw).value.0, false))
  {
    var once := ResetKw(fields, kw).value.0;
    var r2 := ResetKw(fields, once);
    assert r2.Ok?;
    assert forall f | f in once :: !(f in fields && Truthy(once[f]));
    assert r2.value.0 == once;
  }

  /** Resetting a map a second time clears nothing more, for any record
      kind whose keyword variables are read and written back by `kwOf` and `withKw`. */
  lemma ResetEachAgain<E>(fields: seq<string>, m: map<string, E>, kwOf: E -> KwVar, withKw: (E, KwVar) -> E)
    requires forall e, kw :: kwOf(withKw(e, kw)) == kw
    requires forall e :: withKw(e, kwOf(e)) == e
    requires ResetEach(fields, m, kwOf, withKw).Ok?
    ensures var once := ResetEach(fields, m, kwOf, withKw).value.0;
      ResetEach(fields, once, kwOf, withKw) == Ok((once, false))
  {
    var once := ResetEach(fields, m, kwOf, withKw).value.0;
    forall id | id in once ensures ResetKw(fields, kwOf(once[id])) == Ok((kwOf(once[id]), false)) {
      ResetKwAgain(fields, kwOf(m[id]));
    }
    ResetEachFixed(fields, once, kwOf, withKw);
  }

  /** A map whose every record resets to itself without a change resets to itself. */
  lemma ResetEachFixed<E>(fields: seq<string>, m: map<string, E>, kwOf: E -> KwVar, withKw: (E, KwVar) -> E)
    requires forall e :: withKw(e, kwOf(e)) == e
    requires forall id | id in m :: ResetKw(fields, kwOf(m[id])) == Ok((kwOf(m[id]), false))
    ensures ResetEach(fields, m, kwOf, withKw) == Ok((m, false))
  {
    var r := ResetEach(fields, m, kwOf, withKw).value;
    forall id | id in m ensures r.0[id] == m[id] {
      assert withKw(m[id], kwOf(m[id])) == m[id];
    }
    assert r.0 == m;
  }

  /** A second reset clears nothing more and reports no change. */
  lemma ResetCustomVariablesAgain(prjFields: seq<string>, chpFields: seq<string>, scnFields: seq<string>, p: Project)
    requires ResetCustomVariables(prjFields, chpFields, scnFields, p).Ok?
    ensures var once := ResetCustomVariables(prjFields, chpFields, scnFields, p).value.0;
      ResetCustomVariables(prjFields, chpFields, scnFields, once) == Ok((once, false))
  {
    ResetKwAgain(prjFields, p.kwVar);
    ResetEachAgain(chpFields, p.chapters, (c: Chapter) => c.kwVar, (c: Chapter, kw: KwVar) => c.(kwVar := kw));
    ResetEachAgain(scnFields, p.scenes, (s: Scene) => s.kwVar, (s: Scene, kw: KwVar) => s.(kwVar := kw));
  }
}
