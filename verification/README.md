# A verified model of the pywriter / aeon3yw conversion core

This project models in Dafny the pure logic at the centre of the pywriter
library and its Aeon Timeline converter, and proves properties of it:

- **The yWriter 7 merge** (`Yw7File.merge`): an imported novel is reconciled into an existing project.
  Its parts are the order-preserving `merge_lists`, the "overwrite if present, else keep" field rules,
  the replacement of scene reference lists, and the filter-then-merge of each chapter's scene list.
  The post-read passes are modelled too: flag inheritance, tag-list stripping and the reset of custom keyword variables.
- **The Aeon Timeline 3 CSV reader** (`CsvTimeline3.read`), from the parsed rows onward.
  It covers entity classification with dense ids, zero-padded narrative positions, the numbering of parts and chapters, scenes filed under chapters by position prefix, the "Other events" chapter, and date/duration handling.
- **The Aeon Timeline 3 JSON reader** (`JsonTimeline3.read`), from the parsed document onward.
  It covers classification with one counter per kind, the two-level narrative tree walk and the dummy chapter.
- **The older Aeon Timeline CSV reader** (`CsvTimeline.read`).
  It covers Aeon 2/3 detection, lookup-or-create ids by title, the scene-marker filter and the date-ordered single chapter.
- **The date normaliser** `fix_iso_dt`.
- **The bracket scanner** of `scan_file`, which extracts the JSON part of an Aeon 3 project file.
- **The new-project factory**: importability, target path and file-class choice.
- **The HTML readers**: the chapter/scene state machines of the "work in progress" and outline imports, driven by an abstract stream of tag, text and comment events, and the literal markup conversion of `_convert_to_yw`.

The data model is in `novel.dfy`: immutable records, string-keyed maps and explicit order sequences.
Failures are tagged `Error` values, not message strings.
Known defects of the source are modelled as written.
A `Code` switch (`AsWritten` or `Corrected`) selects the intended behaviour instead; see "## Findings".
The readers and the merge take the switch as a parameter, so the corrected definitions are the ones the model's read and merge functions run with `Corrected`.

## Model

| member | source | states |
|---|---|---|
| Strings.Split | src/pywaeon3/csv_timeline3.py:264-268 | `str.split` on one character: at least one part, no part holds the separator, joining the parts with it gives the text back, and there is one part exactly when the separator is absent |
| Strings.ZFill | src/pywaeon3/csv_timeline3.py:271 | `zfill`: a text at least as wide is kept; an unsigned shorter one gets leading zeros up to the width |
| Strings.ParseNatToString | src/pywaeon3/csv_timeline3.py:281-282 | `str` of a counter reads back as the same number |
| Strings.NatToStringInjective | src/pywaeon3/csv_timeline3.py:281-282 | different counters give different ids |
| Strings.StripIdempotent | src/pywriter/html/html_outline.py:106 | stripping twice is stripping once |
| Ids.DenseIdsDistinct | src/pywaeon3/csv_timeline3.py:187-188 | the ids "1" … "n" a counter hands out are all different |
| Ids.DenseIdsIndex | src/pywaeon3/csv_timeline3.py:187-188 | id k+1 is among the first n ids exactly when k < n |
| DtHelper.FixIsoDt | src/pywaeon3/dt_helper.py:9-37 | empty input and input starting with "BC" give None; the call fails with a format error exactly when the text before the first '-' is not a number; a date comes back exactly when that year is from 100 to 9999, and it is the year zero-filled to four places, the rest unchanged, with " 00:00:00" appended exactly when there is no ':' |
| DtHelper.FixIsoDtOfYear | src/pywaeon3/dt_helper.py:23-37 | for a digit year followed by nothing or by a '-', the outcome is decided by the year's value alone: None below 100 or above 9999, else the padded year and the rest |
| DtHelper.FixIsoDtOfNormal | src/pywaeon3/dt_helper.py:31-37 | a year of at least four digits in range, followed by a date text holding a time, is returned unchanged |
| DtHelper.FixIsoDtIdempotent | src/pywaeon3/dt_helper.py:23-37 | normalising a normalised date gives it back, whenever the input has a '-' after the year |
| DtHelper.FixIsoDtNotIdempotentOnBareYear | src/pywaeon3/dt_helper.py:31-37 | a bare year "1910" is normalised to "1910 00:00:00", which a second pass rejects as malformed: idempotence needs the '-' |
| DtHelper.FixIsoDtRejectsBc | test/test_dt_helper.py:12 | "BC 333-04-05" gives None |
| DtHelper.FixIsoDtRejectsTwoDigitYear | test/test_dt_helper.py:13 | "33-04-05" gives None |
| DtHelper.FixIsoDtPadsYear | test/test_dt_helper.py:14 | "100-04-05 21:23:00" gives "0100-04-05 21:23:00" |
| DtHelper.FixIsoDtKeepsFullDate | test/test_dt_helper.py:15 | "1910-04-05 21:23:00" is kept as it is |
| DtHelper.FixIsoDtAppendsMidnight | test/test_dt_helper.py:16 | "1910-04-05" gives "1910-04-05 00:00:00" |
| DtHelper.FixIsoDtKeepsMissingDay | test/test_dt_helper.py:17 | the code as written returns "1910-04 21:23:00" unchanged where the test expects the day filled in |
| DtHelper.FillMonthDay | test/test_dt_helper.py:17-19 | the date text after the year gains "-01" for each missing month and day; a full date text is kept, and an existing prefix is never changed |
| DtHelper.FixIsoDtIntended | test/test_dt_helper.py:11-20 | the corrected normaliser: same refusals as the original, and every date it returns holds a time |
| DtHelper.FixIsoDtIntendedOfYear | test/test_dt_helper.py:11-20 | on a year in range, a date text and a time, the corrected normaliser gives the padded year, the filled date text, and the time or midnight |
| DtHelper.FixIsoDtIntendedIdempotent | src/pywaeon3/dt_helper.py:10-15 | the corrected normaliser is idempotent on every date it accepts, the bare year included |
| DtHelper.FixIsoDtIntendedAgrees | src/pywaeon3/dt_helper.py:23-37 | wherever the date already has a month and a day, the corrected normaliser returns what the code as written returns |
| DtHelper.FixIsoDtBy | src/pywaeon3/dt_helper.py:9-37 | the normaliser the CSV reader runs, as written or corrected: both refuse empty and "BC" input, fail only with a date format error, and the corrected one returns only dates with a time |
| DtHelper.FixIsoDtIntendedFillsDay | test/test_dt_helper.py:17 | "1910-04 " and a time gives "1910-04-01 " and that time |
| DtHelper.FixIsoDtIntendedFillsDate | test/test_dt_helper.py:18-19 | "1910" gives "1910-01-01 00:00:00" |
| Aeon3Fop.ScanJson | src/pywaeon3/aeon3_fop.py:28-48 | the byte loop with its depth counter computes exactly the JSON part: nothing when there is no '{', the balanced run from the first '{' otherwise, and the corrupted-data error when that run never closes |
| Aeon3Fop.CloseFrom | src/pywaeon3/aeon3_fop.py:41-45 | the run ends at the shortest prefix whose depth is back to zero; no shorter prefix (of length at least one) has depth zero |
| Aeon3Fop.JsonPartShape | src/pywaeon3/aeon3_fop.py:30-48 | the part is empty exactly when the data holds no '{'; the scan fails with the corrupted-data error exactly when the run from the first '{' never returns to depth zero; otherwise the part starts at the first '{', ends with '}', has as many '{' as '}' and positive depth on every proper prefix |
| Aeon3Fop.JsonPartSkipsLeading | src/pywaeon3/aeon3_fop.py:35-39 | bytes before the first '{', stray '}' among them, do not change the result |
| Aeon3Fop.JsonPartStops | src/pywaeon3/aeon3_fop.py:41-45 | bytes after the closing '}' do not change the result |
| Aeon3Fop.UnclosedIsCorrupted | src/pywaeon3/aeon3_fop.py:47-48 | data with a '{' and no '}' is corrupted, as in the corrupted-file test (test/test_aeon3_fop.py:70, 86-91) |
| Aeon3Fop.ScanFile | src/pywaeon3/aeon3_fop.py:11-56 | a missing file, an unreadable file, a corrupted JSON part and a failed decoding each give their own error; otherwise the decoded JSON part |
| ListMerge.MergeListsLoop | src/pywriter/yw/yw7_file.py:494-503 | the in-place loop, with its insertion cursor, computes the same list as the functional merge |
| ListMerge.MergeKeepsTarget | src/pywriter/yw/yw7_file.py:494-503 | the merge never removes or reorders a target element: dropping the inserted elements gives the target back |
| ListMerge.MergeElems | src/pywriter/yw/yw7_file.py:498-501 | afterwards the list holds exactly the target's elements and the source's |
| ListMerge.MergeNoop | src/pywriter/yw/yw7_file.py:499-503 | a target that already holds every source element is left unchanged |
| ListMerge.MergeListsIdempotent | src/pywriter/yw/yw7_file.py:494-503 | merging the same source a second time changes nothing |
| ListMerge.MergePlacesNew | src/pywriter/yw/yw7_file.py:499-503 | for a source without repeats, each element new to the target lands at the front if it is the source's first, else immediately after its source predecessor |
| Order.Insert | src/pywaeon3/csv_timeline3.py:396-397 | inserting a string into a strictly ascending sequence keeps it strictly ascending and adds exactly that string |
| Order.SortDistinct | src/pywaeon3/csv_timeline3.py:396-397 | `sorted` over the keys of a dictionary: a strictly ascending sequence (in Python's string order) of exactly the given strings |
| Order.StrictlySortedUnique | src/pywaeon3/csv_timeline3.py:396-397 | a strictly ascending sequence is determined by its elements, so the sort result is the only possible one |
| Yw7Merge.RebuildKw | src/pywriter/yw/yw7_file.py:544-548 | a rebuilt record's keyword variables: each listed field from the source if present, else from the previous record, and `KeyError` exactly when some field is in neither |
| Yw7Merge.OverlayKw | src/pywriter/yw/yw7_file.py:728-732 | a merged scene's, chapter's or project's keyword variables: the listed fields the source has overwrite, every other entry is kept |
| Yw7Merge.MergeLocation | src/pywriter/yw/yw7_file.py:519-548 | a location as merged fails exactly when its keyword variables do; it takes the source title only when that is non-empty, and the source description, aka and tags when present, else the previous ones; as written it takes the source image even when there is none, corrected it keeps the previous image then; its keyword variables are the rebuilt ones |
| Yw7Merge.MergeItem | src/pywriter/yw/yw7_file.py:558-587 | an item as merged fails exactly when its keyword variables do; it takes the source title only when that is non-empty, and the source description, tags, aka and image when present, else the previous ones; its keyword variables are the rebuilt ones |
| Yw7Merge.LocationAsItem | src/pywriter/yw/yw7_file.py:519-587 | as written a location's merge agrees with an item's in everything but the image; corrected it is an item's merge |
| Yw7Merge.MergeLocationLosesImage | src/pywriter/yw/yw7_file.py:528-531 | a location whose source has no image ends up with none, although it had one before |
| Yw7Merge.MergeLocationKeepsImage | src/pywriter/yw/yw7_file.py:528-531 | corrected, a source image replaces the location's image, and without one the previous image is kept |
| Yw7Merge.MergeCharacter | src/pywriter/yw/yw7_file.py:597-646 | a character as merged fails exactly when its keyword variables do; it takes the source title only when that is non-empty, and each of description, tags, aka, image, notes, bio, goals, full name and major flag from the source when present, else the previous one; its keyword variables are the rebuilt ones |
| Yw7Merge.RebuildAll | src/pywriter/yw/yw7_file.py:512-548 | a rebuilt collection holds exactly the listed ids, each the merge of its source record into its previous (or a blank) record; `KeyError` exactly when a listed id is missing from the source or its record merge fails |
| Yw7Merge.MergeRefs | src/pywriter/yw/yw7_file.py:713-727 | a scene's reference list: kept when the source has none, else the source ids that exist in the merged collection, and all of them, in source order: any split of the source list filters piece by piece, and a single id is kept exactly when it exists |
| Yw7Merge.MergeDateTime | src/pywriter/yw/yw7_file.py:683-696 | when the source has a date or time, each of the two comes from the source if present and is kept from the target if not; they are cleared when the source has only a day, hour or minute, and are kept otherwise |
| Yw7Merge.MergeSceneFields | src/pywriter/yw/yw7_file.py:653-732 | a merged scene takes the source title only when that is non-empty, its date and time as `MergeDateTime` decides, its reference lists filtered to the merged collections, its listed keyword variables overlaid, and every other field from the source when present, else from the target |
| Yw7Merge.MergeChapter | src/pywriter/yw/yw7_file.py:738-778 | a merged chapter takes the source title only when that is non-empty and every other field from the source when present, else from the target; its scene list holds exactly the source chapter's scenes and the target chapter's scenes the import does not contain, with the kept target scenes in their order; its listed keyword variables are overlaid |
| Yw7Merge.KeepUnmoved | src/pywriter/yw/yw7_file.py:769-775 | the target scenes that survive are those the source chapter lists or the import does not contain, in their order |
| Yw7Merge.MergeSceneMap | src/pywriter/yw/yw7_file.py:648-732 | the scene map afterwards has the target's and the source's ids; source scenes are merged into their previous (or a new) scene, other scenes are untouched |
| Yw7Merge.MergeChapterMap | src/pywriter/yw/yw7_file.py:734-778 | the chapter map afterwards, likewise |
| Yw7Merge.RebuildIfListed | src/pywriter/yw/yw7_file.py:512-513 | an empty source order leaves the collection and its order alone; a non-empty one replaces the order and rebuilds the collection |
| Yw7Merge.MergeProject | src/pywriter/yw/yw7_file.py:484-815 | the merge fails exactly when rebuilding the locations, items or characters fails; the project title is taken only when non-empty, description, author name and bio and the four field titles are taken when present, and the listed keyword variables are overlaid |
| Yw7Merge.MergeScenes | src/pywriter/yw/yw7_file.py:650-652 | every source scene exists after the merge; a scene the source lacks is unchanged |
| Yw7Merge.MergeSceneRefs | src/pywriter/yw/yw7_file.py:713-727 | a reference list the source supplies holds no dangling id after the merge |
| Yw7Merge.MergeChapters | src/pywriter/yw/yw7_file.py:735-737 | every source chapter exists after the merge; a chapter the source lacks is unchanged |
| Yw7Merge.MergeChapterScenes | src/pywriter/yw/yw7_file.py:763-778 | a merged chapter lists a scene exactly when the source chapter does or the target chapter did and the import does not contain it; the kept target scenes keep their order |
| Yw7Merge.MergedScenes | src/pywriter/yw/yw7_file.py:769-778 | the same membership and order statement for the scene lists alone |
| Yw7Merge.MergeChapterOrder | src/pywriter/yw/yw7_file.py:804-807 | the chapter order keeps every target chapter in its order and gains every source chapter |
| Yw7Merge.MergeLocations | src/pywriter/yw/yw7_file.py:512-516 | a non-empty source location order replaces the target's and the locations are exactly those listed; an empty one changes neither |
| Yw7Merge.MergeLocationTitle | src/pywriter/yw/yw7_file.py:523-527 | a listed location takes the source title only when that is non-empty, else keeps its previous one |
| Yw7Merge.MergeNeedsSplit | src/pywriter/yw/yw7_file.py:649-660 | the scene splitter runs afterwards exactly when some source scene has content |
| Yw7Merge.RebuildKwIdempotent | src/pywriter/yw/yw7_file.py:544-548 | rebuilding keyword variables again from the result changes nothing |
| Yw7Merge.OverlayKwIdempotent | src/pywriter/yw/yw7_file.py:728-732 | overlaying the same source again changes nothing |
| Yw7Merge.MergeLocationIdempotent | src/pywriter/yw/yw7_file.py:519-548 | merging the same source location again changes nothing |
| Yw7Merge.MergeItemIdempotent | src/pywriter/yw/yw7_file.py:558-587 | merging the same source item again changes nothing |
| Yw7Merge.MergeCharacterIdempotent | src/pywriter/yw/yw7_file.py:597-646 | merging the same source character again changes nothing |
| Yw7Merge.RebuildAllIdempotent | src/pywriter/yw/yw7_file.py:512-548 | rebuilding a collection again from the rebuilt one gives it back, given idempotent record merges |
| Yw7Merge.MergeSceneIdempotent | src/pywriter/yw/yw7_file.py:653-732 | merging the same source scene again changes nothing |
| Yw7Merge.KeepUnmovedMerged | src/pywriter/yw/yw7_file.py:769-778 | filtering a merged scene list again keeps all of it |
| Yw7Merge.MergeChapterIdempotent | src/pywriter/yw/yw7_file.py:738-778 | merging the same source chapter again changes nothing |
| Yw7Merge.RebuildIfListedIdempotent | src/pywriter/yw/yw7_file.py:512-516 | rebuilding a listed collection again changes nothing |
| Yw7Merge.SceneMapIdempotent | src/pywriter/yw/yw7_file.py:648-732 | merging the same source scenes again changes nothing |
| Yw7Merge.ChapterMapIdempotent | src/pywriter/yw/yw7_file.py:734-778 | merging the same source chapters again changes nothing |
| Yw7Merge.LocationsIdempotent | src/pywriter/yw/yw7_file.py:511-548 | merging the same source locations again changes nothing |
| Yw7Merge.ItemsIdempotent | src/pywriter/yw/yw7_file.py:550-587 | merging the same source items again changes nothing |
| Yw7Merge.CharactersIdempotent | src/pywriter/yw/yw7_file.py:589-646 | merging the same source characters again changes nothing |
| Yw7Merge.MergeIdempotent | src/pywriter/yw/yw7_file.py:484-815 | merging the same source into a merged project a second time changes nothing |
| Yw7Read.ChapterFlag | src/pywriter/yw/yw7_file.py:469-480 | the flag a chapter passes on: to-do exactly for type 2, notes exactly for type 1, unused exactly for another chapter marked unused |
| Yw7Read.MarkAll | src/pywriter/yw/yw7_file.py:470-480 | marking a chapter's scenes changes exactly the listed scenes, and raises `KeyError` exactly when a listed id has no scene |
| Yw7Read.InheritedStep | src/pywriter/yw/yw7_file.py:468-480 | one more flag-passing chapter in the loop adds exactly its marks |
| Yw7Read.InheritedAt | src/pywriter/yw/yw7_file.py:468-480 | after one more flag-passing chapter, a scene it lists is marked and any other scene is as before |
| Yw7Read.InheritedSkip | src/pywriter/yw/yw7_file.py:468-480 | a chapter that passes on no flag changes nothing |
| Yw7Read.InheritFromSpec | src/pywriter/yw/yw7_file.py:468-480 | the loop over any chapter order succeeds exactly when every scene a flag-passing chapter lists exists, and then equals the order-free marking |
| Yw7Read.InheritFlagsSpec | src/pywriter/yw/yw7_file.py:467-481 | the whole pass succeeds exactly when no flag-passing chapter lists a missing scene, and its result does not depend on the order the chapters are visited in |
| Yw7Read.InheritFlagsSets | src/pywriter/yw/yw7_file.py:467-481 | a scene of a to-do chapter ends to-do and unused, of a notes chapter notes and unused, of another unused chapter unused; a scene no such chapter lists keeps its flags |
| Yw7Read.StripSpaces | src/pywriter/yw/yw7_file.py:1561-1572 | each line keeps its place, is its own stripped text, and neither starts nor ends with whitespace |
| Yw7Read.StripSpacesIdempotent | src/pywriter/yw/yw7_file.py:1561-1572 | stripping twice is stripping once |
| Yw7Read.ResetKw | src/pywriter/yw/yw7_file.py:1582-1585 | the listed fields holding non-empty text become empty, others are untouched; it reports a change exactly when some listed field was non-empty; `KeyError` exactly when a listed field is missing |
| Yw7Read.ResetEach | src/pywriter/yw/yw7_file.py:1586-1595 | every record of a map is reset the same way; a change is reported exactly when some record changed |
| Yw7Read.ResetKwAgain | src/pywriter/yw/yw7_file.py:1582-1585 | a second reset leaves the fields as they are and reports no change |
| Yw7Read.ResetEachAgain | src/pywriter/yw/yw7_file.py:1586-1595 | a second reset of a map changes nothing and reports no change |
| Yw7Read.ResetEachFixed | src/pywriter/yw/yw7_file.py:1586-1595 | a map whose records all reset to themselves resets to itself |
| Yw7Read.ResetCustomVariables | src/pywriter/yw/yw7_file.py:1574-1596 | `KeyError` exactly when a listed field is missing from the project, a chapter or a scene; otherwise only keyword variables change, each as `ResetKw` resets it, and a change is reported exactly when some record changed |
| Yw7Read.ResetCustomVariablesAgain | src/pywriter/yw/yw7_file.py:1574-1596 | after `reset_custom_variables`, calling it again changes nothing and returns false |
| CsvTimeline3.RowsOf | src/pywaeon3/csv_timeline3.py:180-184 | the rows of one kind, a subsequence of the table in its order |
| CsvTimeline3.ReadTables | src/pywaeon3/csv_timeline3.py:174-246 | the first pass succeeds exactly when every row has a type and every character, location and item row a label; otherwise the file cannot be parsed |
| CsvTimeline3.AddRowNumbered | src/pywaeon3/csv_timeline3.py:186-240 | one more row keeps the tables well numbered: each kind's ids stay "1", "2", … in table order and each title maps to an entity with that title |
| CsvTimeline3.ReadTablesNumbered | src/pywaeon3/csv_timeline3.py:159-240 | characters, locations and items get the dense ids of their own counters in table order, and the title maps point at entities with that title |
| CsvTimeline3.PadParts | src/pywaeon3/csv_timeline3.py:270-271 | each dot-separated number is zero-filled to four characters |
| CsvTimeline3.PadPositionParts | src/pywaeon3/csv_timeline3.py:268-272 | a padded position splits back into the padded numbers, each at least four characters wide |
| CsvTimeline3.PadPositionIdempotent | src/pywaeon3/csv_timeline3.py:266-272 | padding an already padded position changes nothing |
| CsvTimeline3.ZFillValue | src/pywaeon3/csv_timeline3.py:271 | zero-filling a decimal number keeps its value |
| CsvTimeline3.PadPositionValue | src/pywaeon3/csv_timeline3.py:266-272 | padding keeps the value of every number of the position, which is what makes positions sortable as strings |
| CsvTimeline3.Narrative | src/pywaeon3/csv_timeline3.py:263-276 | an empty cell gives no type and no position; a cell that is not exactly two space-separated words is a date/time format error; otherwise the marker and the padded position |
| CsvTimeline3.GetIds | src/pywaeon3/csv_timeline3.py:101-144 | the ids of all titles, in order, exactly when every title is known, else none |
| CsvTimeline3.Duration | src/pywaeon3/csv_timeline3.py:332-336 | the days (floored), hours and minutes of a span of seconds, hours below 24 and minutes below 60, rebuilding the span to the minute |
| CsvTimeline3.DurationUnique | src/pywaeon3/csv_timeline3.py:332-336 | any days, hours and minutes that rebuild the span that way are the ones computed |
| CsvTimeline3.DatedTimes | src/pywaeon3/csv_timeline3.py:322-340 | a dated start gives the date and time it begins with; a duration exactly when the end is dated too |
| CsvTimeline3.Lasts | src/pywaeon3/csv_timeline3.py:332-340 | the duration texts, and a date/time format error exactly when either timestamp does not parse |
| CsvTimeline3.SceneTimes | src/pywaeon3/csv_timeline3.py:320-344 | a missing start column is a structure error; an undated start gives the null date and time and no duration; an unreadable one a date/time format error; dates pass through the date normaliser as written or as corrected |
| CsvTimeline3.WithViewpoint | src/pywaeon3/csv_timeline3.py:361-373 | as written: no viewpoint keeps the list; a viewpoint already listed makes the read fail; otherwise the viewpoint character goes in front |
| CsvTimeline3.WithViewpointIntended | src/pywaeon3/csv_timeline3.py:361-373 | as intended: the viewpoint character is in front, and a list that held it keeps the same characters |
| CsvTimeline3.PutViewpoint | src/pywaeon3/csv_timeline3.py:361-373 | the rule the reader follows fails only as written and only for a listed viewpoint; the list holds only the viewpoint character and the characters it had |
| CsvTimeline3.PutViewpointAlone | src/pywaeon3/csv_timeline3.py:370-371 | a scene whose one character is its viewpoint fails as written and keeps that character as intended |
| CsvTimeline3.WithViewpointAgrees | src/pywaeon3/csv_timeline3.py:364-373 | where the viewpoint is not listed yet the code as written does what was intended |
| CsvTimeline3.WithViewpointFailsOnListed | src/pywaeon3/csv_timeline3.py:370-371 | characters ["1", "2"] with viewpoint "2": as written the read fails, as intended the list becomes ["2", "1"] |
| CsvTimeline3.ReadFolder | src/pywaeon3/csv_timeline3.py:278-301 | a chapter or part folder gets the next chapter id at its position with level 0 or 1; any other folder is skipped; a named description column absent from the row is a structure error |
| CsvTimeline3.EventScene | src/pywaeon3/csv_timeline3.py:308-380 | an event's scene has the event's title, the notes flag it is given, outline status, date, time and duration from the date columns, description, notes and tags from their cells, locations and items looked up by title, and the characters with the viewpoint character in front; it fails exactly where the viewpoint rule does |
| CsvTimeline3.ReadEvent | src/pywaeon3/csv_timeline3.py:303-380 | an event gets the next scene id; a missing title column is a structure error; a scene-marked event is filed at its position, any other joins the other events |
| CsvTimeline3.ReadEventFields | src/pywaeon3/csv_timeline3.py:306-380 | the scene an event becomes takes date, time and duration from the row's date columns, and description, notes, tags, locations, items and characters from the row as `EventScene` states |
| CsvTimeline3.ReadEntity | src/pywaeon3/csv_timeline3.py:261-380 | a row without a narrative column is a structure error, an unreadable one a date/time format error; the event count grows by one exactly for events |
| CsvTimeline3.ReadEvents | src/pywaeon3/csv_timeline3.py:255-380 | the second pass counts exactly the event rows |
| CsvTimeline3.ReadEventsOk | src/pywaeon3/csv_timeline3.py:255-380 | after the second pass scenes and chapters carry dense ids, every position points at a record of the right kind, and different chapter positions point at different chapters |
| CsvTimeline3.ScenesUnder | src/pywaeon3/csv_timeline3.py:409-412 | the scene ids whose position starts with the chapter's, taken in sorted position order |
| CsvTimeline3.ScenesUnderMembers | src/pywaeon3/csv_timeline3.py:409-412 | a scene is handed to a chapter exactly when some position filed for it starts with the chapter's position |
| CsvTimeline3.ScenesUnderWithin | src/pywaeon3/csv_timeline3.py:409-412 | every scene handed to a chapter is one the position map files |
| CsvTimeline3.NumberOne | src/pywaeon3/csv_timeline3.py:403-416 | one chapter position: appended to the chapter order; a chapter gets the next chapter number and its scenes, a part the next part number; no other chapter changes |
| CsvTimeline3.NumberChapters | src/pywaeon3/csv_timeline3.py:399-416 | numbering keeps the set of chapters |
| CsvTimeline3.NumberChaptersOrder | src/pywaeon3/csv_timeline3.py:402-403 | the chapter order follows the sorted positions |
| CsvTimeline3.NumberChaptersLevels | src/pywaeon3/csv_timeline3.py:402-416 | numbering leaves every chapter's level alone |
| CsvTimeline3.NumberChaptersCounts | src/pywaeon3/csv_timeline3.py:399-416 | the running numbers end at the number of chapters and of parts among the positions |
| CsvTimeline3.NumberChaptersUntouched | src/pywaeon3/csv_timeline3.py:402-416 | a chapter no position points at is left as it was |
| CsvTimeline3.NumberChaptersEntry | src/pywaeon3/csv_timeline3.py:402-416 | the chapter at sorted position k is titled with the count of chapters up to it and gets the scenes below its position; a part is titled with the count of parts up to it |
| CsvTimeline3.Assemble | src/pywaeon3/csv_timeline3.py:394-427 | the project's chapters are the folders' plus one with the next id, the order has one entry per distinct position plus one, and scenes, characters and locations are those read |
| CsvTimeline3.FirstMissing | src/pywaeon3/csv_timeline3.py:250-253 | the first required label the header lacks, none exactly when all are present |
| CsvTimeline3.Read | src/pywaeon3/csv_timeline3.py:95-429 | the read fails to parse when the first pass does, reports the first missing label, and otherwise runs the second pass and builds the chapters |
| CsvTimeline3.SortedPositions | src/pywaeon3/csv_timeline3.py:396 | the chapter positions come out ascending, each resolving to a chapter |
| CsvTimeline3.AssembleOrder | src/pywaeon3/csv_timeline3.py:396-427 | the chapters follow the ascending positions, and the "Other events" chapter comes last under the id after the last folder's |
| CsvTimeline3.AssembleDistinct | src/pywaeon3/csv_timeline3.py:402-427 | no chapter is listed twice and every listed chapter exists |
| CsvTimeline3.OrderDistinct | src/pywaeon3/csv_timeline3.py:402-427 | the folder chapters in position order then one fresh chapter list no chapter twice and none unknown |
| CsvTimeline3.AssembleOther | src/pywaeon3/csv_timeline3.py:418-427 | the last chapter holds exactly the events outside the narrative, all of them notes scenes |
| CsvTimeline3.ScenesUnderFiled | src/pywaeon3/csv_timeline3.py:409-412 | the scenes handed to a chapter are normal scenes of the project |
| CsvTimeline3.AssembleChapter | src/pywaeon3/csv_timeline3.py:402-416 | every folder's chapter in the project is the one numbering made |
| CsvTimeline3.AssembleEntry | src/pywaeon3/csv_timeline3.py:402-416 | the chapter at position k of the order is the numbered chapter of the k-th sorted position |
| CsvTimeline3.NumberedScenesExist | src/pywaeon3/csv_timeline3.py:409-412 | numbering hands a chapter only scenes of the second pass |
| CsvTimeline3.AssembleFolderScenes | src/pywaeon3/csv_timeline3.py:405-416 | a folder's chapter holds the scenes below its position, or none for a part |
| CsvTimeline3.AssembleChapterScenes | src/pywaeon3/csv_timeline3.py:402-427 | the scenes of every listed chapter exist |
| CsvTimeline3.AssembleNoDangling | src/pywaeon3/csv_timeline3.py:394-427 | no chapter lists a scene the project lacks |
| CsvTimeline3.ReadEntities | src/pywaeon3/csv_timeline3.py:159-240 | a read project's characters, locations and items have the ids of their own counters in table order, each holding what its row says |
| CsvTimeline3.ReadScenes | src/pywaeon3/csv_timeline3.py:306-380 | every event row becomes one scene, numbered in table order, each an outline |
| CsvTimeline3.ReadChapters | src/pywaeon3/csv_timeline3.py:394-427 | a read project lists no chapter twice, all present, no dangling scene, and the "Other events" chapter last holding only notes scenes |
| JsonTimeline3.Text | src/pywaeon3/json_timeline3.py:116-117 | a text member: a missing key is a `KeyError`, a present one is read as it is |
| JsonTimeline3.Timestamp | src/pywaeon3/json_timeline3.py:118 | a start timestamp: an error exactly when the key is missing or the start is `null`, and a value exactly when the timestamp is not `null` |
| JsonTimeline3.Kind | src/pywaeon3/json_timeline3.py:104-107 | the entries of one type, a subsequence of the `byId` entries in their order |
| JsonTimeline3.KindSnoc | src/pywaeon3/json_timeline3.py:104-159 | one more entry extends the list of its own type and leaves the others alone |
| JsonTimeline3.EventsFrame | src/pywaeon3/json_timeline3.py:104-159 | an entry of another type leaves the scenes and their uid table alone |
| JsonTimeline3.ChaptersFrame | src/pywaeon3/json_timeline3.py:104-159 | an entry of another type leaves the chapters and their uid table alone |
| JsonTimeline3.CharactersFrame | src/pywaeon3/json_timeline3.py:104-159 | an entry of another type leaves the characters alone |
| JsonTimeline3.LocationsFrame | src/pywaeon3/json_timeline3.py:104-159 | an entry of another type leaves the locations alone |
| JsonTimeline3.AddEventFits | src/pywaeon3/json_timeline3.py:107-126 | an event's scene is an outline with the event's label and description, dated exactly when its timestamp is at least the year-100 limit |
| JsonTimeline3.ClassifyOk | src/pywaeon3/json_timeline3.py:93-159 | scenes, chapters, characters and locations are numbered densely in `byId` order by their own counters, each built from its entry, and no items are created |
| JsonTimeline3.Lookup | src/pywaeon3/json_timeline3.py:186 | a dictionary lookup: `KeyError` exactly when the key is missing |
| JsonTimeline3.ChildChapterScenes | src/pywaeon3/json_timeline3.py:188-193 | a container child collects the scenes of its event children in tree order, and becomes a chapter of scenes exactly when there is one |
| JsonTimeline3.TopChapterScenes | src/pywaeon3/json_timeline3.py:182-197 | a top-level container keeps its own fields, gathers the events directly under it, and changes only its level and scenes |
| JsonTimeline3.TopChapterParts | src/pywaeon3/json_timeline3.py:184-186 | without events directly under it, a top-level container is a part exactly when it has a container child |
| JsonTimeline3.ChildOk | src/pywaeon3/json_timeline3.py:182-197 | a second-level node succeeds exactly when it fits, and then orders its chapter if it is a container |
| JsonTimeline3.ChildrenOk | src/pywaeon3/json_timeline3.py:182-197 | the second level succeeds exactly when every node fits, and appends the container children's chapters to the order |
| JsonTimeline3.ChildrenFrame | src/pywaeon3/json_timeline3.py:182-197 | chapters outside a top-level node's list are left alone by its children |
| JsonTimeline3.ChildrenUnder | src/pywaeon3/json_timeline3.py:184-193 | a container child's chapter collects its scenes |
| JsonTimeline3.TopOk | src/pywaeon3/json_timeline3.py:177-197 | a top-level node succeeds exactly when every child fits, and orders its chapter, then its container children's |
| JsonTimeline3.WalkOk | src/pywaeon3/json_timeline3.py:177-197 | the walk succeeds exactly when every second-level node fits, and orders each top-level container followed by its container children |
| JsonTimeline3.WalkFrame | src/pywaeon3/json_timeline3.py:177-197 | chapters outside the order are left alone by the walk |
| JsonTimeline3.WalkTops | src/pywaeon3/json_timeline3.py:179-197 | a top-level container's chapter sees its children one at a time |
| JsonTimeline3.WalkUnder | src/pywaeon3/json_timeline3.py:184-193 | a container child's chapter collects its scenes |
| JsonTimeline3.WalkReshapes | src/pywaeon3/json_timeline3.py:177-197 | the walk changes chapters' levels and scene lists and nothing else |
| JsonTimeline3.IdsByUidValues | src/pywaeon3/json_timeline3.py:112 | the uid table sends every uid to one of the dense ids |
| JsonTimeline3.ReadEntities | src/pywaeon3/json_timeline3.py:104-159 | reading makes scene k+1 from event k and character k+1 from person k, numbers the locations the same way, and creates no items |
| JsonTimeline3.ReadChapters | src/pywaeon3/json_timeline3.py:128-205 | chapter k+1 is made from narrative container k, the chapters are ordered as the tree lists the containers, and without any container the only chapter is the dummy chapter "1" |
| JsonTimeline3.TopChapterLevel | src/pywaeon3/json_timeline3.py:182-197 | a top-level container's level is set by its last container-or-event child |
| JsonTimeline3.ClassifiedBlank | src/pywaeon3/json_timeline3.py:131-136 | classified chapters have no level and no scenes yet |
| JsonTimeline3.ReadTops | src/pywaeon3/json_timeline3.py:179-197 | in a read, a top-level container gathers the events directly under it and takes the level of its last container-or-event child |
| JsonTimeline3.ReadUnder | src/pywaeon3/json_timeline3.py:184-193 | in a read, a container child gathers the events under it and is a chapter of scenes exactly when there is one |
| JsonTimeline3.ReadUnordered | src/pywaeon3/json_timeline3.py:177-205 | in a read, a chapter outside the order has no scenes and no level |
| JsonTimeline3.ReadNoDirect | src/pywaeon3/json_timeline3.py:195-197 | as written, a read that succeeds has no event directly under a top-level node |
| JsonTimeline3.AddLocationOk | src/pywaeon3/json_timeline3.py:149-159 | as written, adding a location succeeds exactly when it has a label and a description and the last character id bound so far names one of the locations, the new one included |
| JsonTimeline3.AddItemOk | src/pywaeon3/json_timeline3.py:104-159 | adding an entry succeeds exactly when it has a type, label and description, a readable start if it is an event, and, as written, a placeable location |
| JsonTimeline3.ClassifyCounts | src/pywaeon3/json_timeline3.py:98-159 | after classification the character and location counters equal the number of entries of their types, and the locations are keyed by the dense ids |
| JsonTimeline3.ClassifyOkIff | src/pywaeon3/json_timeline3.py:104-159 | the classification succeeds exactly when every entry is readable and, as written, every location entry is placed |
| JsonTimeline3.ReadOk | src/pywaeon3/json_timeline3.py:104-197 | a read succeeds exactly when the classification does and every second-level node of the tree fits |
| JsonTimeline3.WalkAvoids | src/pywaeon3/json_timeline3.py:177-197 | an event the walk does not reach is filed in no chapter |
| JsonTimeline3.ReadUnreached | src/pywaeon3/json_timeline3.py:177-197 | an event the tree does not reach on its second or third level is a scene of no chapter |
| JsonTimeline3.ReadFileOk | src/pywaeon3/json_timeline3.py:66-78 | the file reader fails as the scan fails, on an empty JSON part and on unparsable text, and otherwise returns the read of the parsed document |
| JsonTimeline3.UnparsableJson | src/pywaeon3/json_timeline3.py:74-78 | as written, text that does not parse ends in a `TypeError` instead of the intended message |
| JsonTimeline3.UnparsableJsonReported | src/pywaeon3/json_timeline3.py:74-78 | corrected, text that does not parse is reported as not parsable, and text that parses is read as usual |
| JsonTimeline3.LocationLabelMisfiled | src/pywaeon3/json_timeline3.py:153-158 | as written, one character and then two locations leave the second location's label on location "1" and location "2" blank |
| JsonTimeline3.LocationBeforeCharacter | src/pywaeon3/json_timeline3.py:157 | as written, a location before any character stops the reading |
| JsonTimeline3.LocationLabelFiled | src/pywaeon3/json_timeline3.py:153-158 | corrected, the same entries give each location its own label |
| JsonTimeline3.SceneUnderTopFails | src/pywaeon3/json_timeline3.py:195-196 | as written, an event directly under a top-level container is looked up among the containers and the read fails |
| JsonTimeline3.SceneUnderTopFiled | src/pywaeon3/json_timeline3.py:195-197 | corrected, that event becomes scene "1" of chapter "1", a chapter of scenes |
| CsvTimeline.Detect | src/pywaeon3/csv_timeline.py:173-183 | a header with a "Type" column means version 3 with ',' between values and the four version 3 labels, all other settings kept; otherwise version 2 with a vertical bar between values and the settings as given |
| CsvTimeline.CheckLabels | src/pywaeon3/csv_timeline.py:185-188 | the header check passes exactly when every required label is present, and otherwise reports the first missing one |
| CsvTimeline.GetIds | src/pywaeon3/csv_timeline.py:139-163 | ids for all titles exactly when every title is non-empty or known; a new non-empty title gets a fresh id; known titles keep theirs |
| CsvTimeline.GetIdsOk | src/pywaeon3/csv_timeline.py:139-163 | looking up titles keeps the table well formed and only extends it, and the ids found name the titles they were looked up for |
| CsvTimeline.GetIdsKnown | src/pywaeon3/csv_timeline.py:144-147 | titles that are all known are looked up without any change to the table |
| CsvTimeline.GetIdsIdempotent | src/pywaeon3/csv_timeline.py:139-163 | looking the same titles up again gives the same ids and changes nothing |
| CsvTimeline.Times | src/pywaeon3/csv_timeline.py:221-254 | an empty start leaves the scene undated; a start with more than two parts or a year before 100 gets the placeholder date; otherwise the start's date and time and the duration to the end |
| CsvTimeline.CellIdsOk | src/pywaeon3/csv_timeline.py:265-269 | a multi-value column gives ids exactly when the row has the column and none of its titles is empty; the ids then name those titles |
| CsvTimeline.GetIdsSome | src/pywaeon3/csv_timeline.py:139-163 | with no empty title in the table, a lookup fails exactly on an empty title |
| CsvTimeline.ViewpointOk | src/pywaeon3/csv_timeline.py:271-275 | the viewpoint column gives an id exactly when its cell is not empty, and the id names that cell |
| CsvTimeline.LookupOk | src/pywaeon3/csv_timeline.py:265-286 | the row's lookups keep the tables well formed and only extend them, and the ids found name the row's titles |
| CsvTimeline.ReadRow | src/pywaeon3/csv_timeline.py:194-290 | a version 3 row without a type column is a structure error; a row that is not an event is skipped; an event that is not kept only counts; a kept event becomes the next scene, with title, notes flag, outline status, the date, time and duration its start and end cells give, description, notes and tags from their cells, and the looked-up references |
| CsvTimeline.ReadRowStep | src/pywaeon3/csv_timeline.py:194-290 | one row: a non-event changes nothing, an unkept event only counts, a kept event adds its scene, files it by start and extends the tables |
| CsvTimeline.FiledStep | src/pywaeon3/csv_timeline.py:221-254 | filing a scene keeps the undated list and the per-start lists equal to the ones read off the scenes so far |
| CsvTimeline.ReadRowsInvariant | src/pywaeon3/csv_timeline.py:194-290 | the row loop keeps its invariant from the first row to the last |
| CsvTimeline.Read | src/pywaeon3/csv_timeline.py:169-344 | a file without header fields cannot be parsed; a missing label is reported; otherwise the rows are read and the single chapter assembled |
| CsvTimeline.AssembleOrder | src/pywaeon3/csv_timeline.py:304-339 | the chapter lists the scenes in the order undated first, then grouped by ascending start |
| CsvTimeline.ReadOrder | src/pywaeon3/csv_timeline.py:304-339 | the single chapter lists the scenes sorted by start cell, undated first, keeping table order among equal starts: a stable sort |
| CsvTimeline.KeyedWithin | src/pywaeon3/csv_timeline.py:202-216 | the scene ids are among the event numbers |
| CsvTimeline.KeyedKept | src/pywaeon3/csv_timeline.py:202-216 | event j+1 becomes scene "j+1" exactly when it is kept |
| CsvTimeline.ReadScenes | src/pywaeon3/csv_timeline.py:196-290 | every event counts; event j+1 becomes scene "j+1" exactly when it is kept, and takes its title, notes flag, outline status, date, time, duration, description, notes and tags from its row |
| CsvTimeline.ReadWorld | src/pywaeon3/csv_timeline.py:85-163 | locations, characters and items are numbered in order of first mention and have distinct non-empty titles |
| CsvTimeline.ReadLinks | src/pywaeon3/csv_timeline.py:265-286 | each kept event's scene refers to locations, characters and items that exist and carry the titles its row names |
| CsvTimeline.ViewpointAlsoListed | src/pywaeon3/csv_timeline.py:277-283 | a row whose one character is also its viewpoint character: as written the read fails; as intended the scene lists that character once |
| CsvTimeline.SameCharacter | src/pywaeon3/csv_timeline.py:268-275 | a character column and a viewpoint column naming the same title give the same character id |
| DateOrder.FirstDates | src/pywaeon3/csv_timeline.py:221-226 | the keys of the date dictionary: every non-empty start text once, none other |
| DateOrder.WithGroups | src/pywaeon3/csv_timeline.py:314-320 | in the grouped order, the scenes of a listed date are exactly that date's scenes in reading order |
| DateOrder.GroupsSorted | src/pywaeon3/csv_timeline.py:314-320 | groups taken in strictly ascending date order are sorted by start |
| DateOrder.ByDateSorted | src/pywaeon3/csv_timeline.py:310-320 | the reader's scene order (undated first, then by ascending start) is sorted by start text |
| DateOrder.ByDateStable | src/pywaeon3/csv_timeline.py:221-226 | for every start text the reader's order keeps exactly the scenes filed under it, in reading order |
| DateOrder.ByDatePermutes | src/pywaeon3/csv_timeline.py:310-320 | the reader's order is a permutation of the scenes |
| HtmlMarkup.ReplaceRemoves | src/pywriter/html/html_file.py:74-85 | `str.replace` with a replacement that cannot overlap the pattern leaves no occurrence of the pattern |
| HtmlMarkup.ReplaceKeepsOut | src/pywriter/html/html_file.py:74-85 | such a replacement brings in no text that was absent and cannot overlap it |
| HtmlMarkup.OneLine | src/pywriter/html/html_file.py:67-69 | after the three replacements the text has no line feed, carriage return or tab, and no new character but the space |
| HtmlMarkup.Collapse | src/pywriter/html/html_file.py:70-71 | the collapse loop ends with no double space, no longer text, and no new character |
| HtmlMarkup.CollapseIdempotent | src/pywriter/html/html_file.py:70-71 | collapsing twice is collapsing once |
| HtmlMarkup.CollapseKeeps | src/pywriter/html/html_file.py:70-71 | a text with no double space passes the loop unchanged |
| HtmlMarkup.ReplaceAllRemoves | src/pywriter/html/html_file.py:74-85 | after a run of tag-to-mark replacements none of the tags is left |
| HtmlMarkup.Literal | src/pywriter/html/html_file.py:74-85 | none of the twelve literal italic and bold tags is left, and only mark characters come in |
| HtmlMarkup.LiteralTag | src/pywriter/html/html_file.py:74-85 | in a text whose only tag is one of the twelve, that tag becomes its own mark and nothing else changes |
| HtmlMarkup.LiteralBold | src/pywriter/html/html_file.py:80 | `<b>` becomes `[b]` |
| HtmlMarkup.LiteralEmClose | src/pywriter/html/html_file.py:79 | `</EM>` becomes `[/i]` |
| HtmlMarkup.ReplaceAllTag | src/pywriter/html/html_file.py:74-85 | in replacements of simple tags, a text whose only tag is a listed one gets the mark of the first pair naming it |
| HtmlMarkup.TagEnd | src/pywriter/html/html_file.py:86-89 | where the lazy `.*?>` ends: the first `>` after the start with no line feed before it |
| HtmlMarkup.SubOpenTag | src/pywriter/html/html_file.py:86-89 | `re.sub` of an opening tag with attributes brings in no character the text and the mark lack |
| HtmlMarkup.SubOpenTagFront | src/pywriter/html/html_file.py:86-89 | a tag that opens with the lead, with attributes free of `>` and line feeds, is replaced by the mark up to and including its `>` |
| HtmlMarkup.SubOpenTagAfter | src/pywriter/html/html_file.py:86-89 | text before the first possible tag passes through unchanged |
| HtmlMarkup.EmphasisItalic | src/pywriter/html/html_file.py:86-87 | in a text whose only tag is an opening emphasis tag, that tag with its attributes becomes `[i]` and nothing else changes |
| HtmlMarkup.EmphasisBold | src/pywriter/html/html_file.py:88-89 | likewise an opening strong tag becomes `[b]` |
| HtmlMarkup.Emphasis | src/pywriter/html/html_file.py:86-89 | the emphasis and strong opening tags become marks, bringing in only mark characters |
| HtmlMarkup.Orphans | src/pywriter/html/html_file.py:92-94 | dropping orphaned mark pairs brings in no character |
| HtmlMarkup.OrphansJoinBold | src/pywriter/html/html_file.py:92-94 | a bold run broken by a closing and a reopening mark is joined again |
| HtmlMarkup.OrphansJoinItalic | src/pywriter/html/html_file.py:92-94 | an italic run broken the same way is joined again |
| HtmlMarkup.ConvertToYw | src/pywriter/html/html_file.py:66-95 | the converted text is one line: no line feed, carriage return or tab |
| ProjectFactory.SplitExtParts | src/aeon3ywlib/new_project_factory.py:39 | `os.path.splitext` splits a path into two parts that make it up again, the second an extension, with a named file in front of a non-empty one |
| ProjectFactory.SplitExtOf | src/aeon3ywlib/new_project_factory.py:39 | splitting a named file followed by an extension gives both back |
| ProjectFactory.Importable | src/aeon3ywlib/new_project_factory.py:59-63 | a file name is importable exactly when it ends with none of the suffixes |
| ProjectFactory.CanImport | src/aeon3ywlib/new_project_factory.py:49-63 | a path cannot be imported exactly when, without its extension, it ends with "_xref" or "_brf_synopsis" |
| ProjectFactory.CanImportOf | src/aeon3ywlib/new_project_factory.py:58-63 | whether a file can be imported depends on its name without the extension alone |
| ProjectFactory.TargetPath | src/aeon3ywlib/new_project_factory.py:39-40 | the new project's path ends with ".yw7" and splits back into the source's root and ".yw7" |
| ProjectFactory.FirstMatch | src/aeon3ywlib/new_project_factory.py:41-45 | the first class with a suffix whose suffix and extension end the path, if any |
| ProjectFactory.MakeFileObjects | src/aeon3ywlib/new_project_factory.py:36-47 | a path not meant to be imported is refused exactly when it cannot be imported; an unsupported type is reported exactly when no class matches; otherwise the first matching class and the ".yw7" target next to the source |
| HtmlFile.FirstNumber | src/pywriter/html/html_file.py:133 | `re.search('[0-9]+', s).group()`: nothing exactly when the text has no digit, else a non-empty run of digits |
| HtmlFile.FirstNumberOf | src/pywriter/html/html_file.py:133 | the number found is the first run of digits, whole |
| HtmlFile.DivisionStart | src/pywriter/html/html_file.py:130-140 | a division whose first attribute is an id opens a scene ("ScID") in the current chapter or a chapter ("ChID"), numbered by the id's first number; a division without attributes, an id without a value or without a digit, and a scene outside any chapter fail; every other start tag changes nothing |
| HtmlFile.DivisionsNest | src/pywriter/html/html_file.py:130-140 | a chapter division followed by a scene division lists the chapter, which holds the scene, which is current |
| HtmlFile.HandleComment | src/pywriter/html/html_file.py:150-151 | a comment is collected between comment marks exactly while a scene is open, and nothing else changes |
| HtmlFile.Meta | src/pywriter/html/html_import.py:86-90 | a `meta` tag fails exactly when its first attribute is missing or has no value or, for an author or description, its second is missing; it sets the author or the description from the second attribute and nothing else |
| HtmlFile.EndHeading | src/pywriter/html/html_import.py:110-112 | a heading end fails with `KeyError` exactly without a current chapter; otherwise the collected lines title that chapter and collecting starts afresh |
| HtmlFile.EndTitle | src/pywriter/html/html_import.py:113-114 | the end of the document title makes the collected lines the novel's title and changes nothing else |
| HtmlFile.OpenChapterWf | src/pywriter/html/html_import.py:60-73 | opening a chapter keeps the reader's invariant: its id is the next number, it comes last and has no scene yet |
| HtmlFile.OpenSceneOrder | src/pywriter/html/html_import.py:74-82 | opening a scene appends it to the reading order of the scenes |
| HtmlFile.OpenSceneWf | src/pywriter/html/html_outline.py:56-63 | opening a scene keeps the invariant, fails exactly without a current chapter, and the new id is the next scene number |
| HtmlImport.ParagraphScene | src/pywriter/html/html_import.py:79-82 | the scene a paragraph opens is titled "Scene" and its number, with outline status |
| HtmlImport.HandleStart | src/pywriter/html/html_import.py:51-92 | a heading opens the next chapter (level 1 for h1, 0 for h2); a paragraph outside a scene but in a chapter opens the next scene; a division closes scene and chapter; `meta` sets author or description; `title` starts collecting |
| HtmlImport.HandleEnd | src/pywriter/html/html_import.py:94-114 | a paragraph end makes the collected lines and a line break the open scene's content, with outline status below ten words and draft status from ten; heading and title ends title the chapter and the novel |
| HtmlImport.HandleData | src/pywriter/html/html_import.py:116-142 | a scene divider closes the open scene; otherwise the stripped text is collected, a leading comment at the start of a scene titling it |
| HtmlImport.CommentTitleBracketed | src/pywriter/html/html_import.py:134-135 | a title between tildes is taken as it stands, stripped |
| HtmlImport.CommentTitlePlain | src/pywriter/html/html_import.py:136-138 | without tildes the comment's text, stripped, is the title |
| HtmlImport.CommentSplit | src/pywriter/html/html_import.py:132-133 | splitting once at the comment end separates the comment from what follows |
| HtmlImport.TitleFromComment | src/pywriter/html/html_import.py:130-142 | a comment opening a scene's first text titles the scene, and only what follows it is collected |
| HtmlImport.HandleStartWf | src/pywriter/html/html_import.py:51-92 | every start tag keeps the invariant, and fails exactly on a malformed `meta` tag |
| HtmlImport.HandleEndWf | src/pywriter/html/html_import.py:94-114 | every end tag keeps the invariant, and fails exactly on a heading end outside any chapter |
| HtmlImport.HandleDataWf | src/pywriter/html/html_import.py:116-142 | text keeps the invariant |
| HtmlImport.StepWf | src/pywriter/html/html_import.py:51-142 | every parser event keeps the invariant and fails exactly on a malformed `meta` tag or a heading end outside any chapter |
| HtmlImport.FeedWf | src/pywriter/html/html_import.py:51-142 | a whole document keeps the invariant |
| HtmlImport.ReadNumbersDensely | src/pywriter/html/html_import.py:51-142 | the novel read from any document numbers its chapters 1, 2, … in order and its scenes 1, 2, … in the order the chapters list them, each scene listed by exactly one chapter |
| HtmlOutline.HandleStart | src/pywriter/html/html_outline.py:40-73 | a heading opens the next chapter; an h3 opens the next scene, an outline with empty content, in the current chapter; a division closes scene and chapter; `meta` and `title` as in the import |
| HtmlOutline.EndParagraph | src/pywriter/html/html_outline.py:83-88 | a paragraph end makes the collected lines and a line break the description of the open scene, else of the current chapter, else nothing |
| HtmlOutline.EndSceneHeading | src/pywriter/html/html_outline.py:92-94 | an h3 end titles the open scene with the collected lines and starts collecting afresh; without an open scene it fails |
| HtmlOutline.HandleEnd | src/pywriter/html/html_outline.py:75-96 | each end tag goes to its own handler; any other changes nothing |
| HtmlOutline.HandleData | src/pywriter/html/html_outline.py:98-106 | all text is collected, stripped, and nothing else changes |
| HtmlOutline.HandleStartWf | src/pywriter/html/html_outline.py:40-73 | every start tag keeps the invariant and fails exactly where `Fails` says |
| HtmlOutline.HandleEndWf | src/pywriter/html/html_outline.py:75-96 | every end tag keeps the invariant and fails exactly where `Fails` says |
| HtmlOutline.StepWf | src/pywriter/html/html_outline.py:40-106 | every parser event keeps the invariant and fails exactly on a malformed `meta` tag, a scene heading outside a chapter, or a heading end without its chapter or scene |
| HtmlOutline.FeedWf | src/pywriter/html/html_outline.py:40-106 | a whole outline keeps the invariant |
| HtmlOutline.ReadNumbersDensely | src/pywriter/html/html_outline.py:40-106 | the novel read from any outline numbers its chapters and scenes densely, each scene listed by exactly one chapter |
| HtmlOutline.FeedConcat | src/pywriter/html/html_outline.py:40-106 | feeding two runs one after the other is feeding their concatenation |
| HtmlOutline.HeadingRun | src/pywriter/html/html_outline.py:42-55 | a heading with its text opens a chapter titled with that text |
| HtmlOutline.ChapterParagraph | src/pywriter/html/html_outline.py:83-88 | a paragraph outside any scene describes the current chapter |
| HtmlOutline.SceneHeadingRun | src/pywriter/html/html_outline.py:56-63 | a scene heading with its text gives a scene so titled, last of the current chapter |
| HtmlOutline.OutlineExample | src/pywriter/html/html_outline.py:40-106 | an outline of one chapter with a description and one scene reads as chapter "1" so titled and described, listing scene "1" so titled |

## Left out

- File I/O: opening, reading and writing files, backup renames, the lock-file check, and the XML tree of `yw7_file.py` (parsing, building, indenting, the CDATA post-processing). The merge and the read passes work on the project records.
- Tokenisers: `csv.DictReader`, `json.loads`, `HTMLParser` and `read_html_file`. The readers take rows as string-keyed maps, the JSON document as a datatype, and HTML as a sequence of start-tag, end-tag, text and comment events.
- UTF-8 decoding in `scan_file` is a parameter `decode`. A decoder that fails gives the decoding error.
- Aeon3Fop.ScanFile: a file without any `{` gives whatever `decode` makes of no bytes; `codecs.decode` makes the empty text of them, which the model does not require of the parameter.
- JsonTimeline3: the parsed `byId` object is a list of pairs, so the model also admits a document that repeats a uid, which a parsed JSON object cannot hold; such documents have no counterpart in the source.
- `datetime.fromisoformat` and the `datetime.min + timedelta` conversion are parameters: `toSeconds` maps a date/time text to a second count, and `iso` maps a timestamp to its ISO text. Durations are computed from the second difference with floor division. Dafny's `/` and `%` agree with Python's for a positive divisor.
- `Scene.wordCount` is the parameter `words`. The scene class's status list is not part of this model: "Outline" and "Draft" are taken to sit at indices 1 and 2.
- The regular expressions at `html_file.py` lines 61-64 (font and span tags) and line 110 (`_preprocess`) are left out. The text reaching the literal conversion is an input.
- `_postprocess` of the HTML readers and the scene splitter (`Splitter.split_scenes`) are not part of this model. The merge only reports whether the splitter would run.
- The message texts and their error marker: every failure is a tagged error kind.
- `uid_helper.py` (random ids), the command-line scripts, the converters, the UI and `pywriter_globals.py` are left out.
- `os.path.splitext` and `os.path.normpath` are modelled for POSIX paths only. Drive letters and backslashes are not modelled.
- Lower-casing of tag names and attribute values covers ASCII letters only.
- The AD-era loop at `json_timeline3.py` lines 82-89 is left out, because its result is never used.
- The HTML readers store '0' and '1' as strings for the chapter type, the chapter's old type and the initial scene status. The model stores the numbers.
- Python's `int()` on a year is modelled as accepting a non-empty run of ASCII digits only. Signs, surrounding whitespace and underscores are not accepted.
- The test expectations at `test/test_dt_helper.py` lines 17-19 contradict the code. The model follows the code; see "## Findings".
- HtmlMarkup.ConvertToYw: states only that the converted text is one line; the other steps are stated by the members for each step.

## Findings

| source | as written | input that shows it | evidently intended | confidence | as-written member | corrected member |
|---|---|---|---|---|---|---|
| src/pywaeon3/json_timeline3.py:157-158 | a location's label and summary are stored under the character counter's last id | one character, then two locations: the second location's label lands on location "1" and location "2" stays blank | store them under the location's own id | not executed | JsonTimeline3.LocationLabelMisfiled | JsonTimeline3.LocationLabelFiled |
| src/pywaeon3/json_timeline3.py:196 | a scene directly under a top-level container is looked up in the chapter table by its event uid | a top-level container with an event child | file the scene under its container's chapter | not executed | JsonTimeline3.SceneUnderTopFails | JsonTimeline3.SceneUnderTopFiled |
| src/pywaeon3/json_timeline3.py:77 | the handler names the string 'JSONDecodeError' instead of the exception class, so invalid JSON raises `TypeError` | any text that does not parse as JSON | report the text as not parsable | not executed | JsonTimeline3.UnparsableJson | JsonTimeline3.UnparsableJsonReported |
| src/pywriter/yw/yw7_file.py:528-531 | the image fallback assigns the description, so the location's image is replaced by the source's missing one | a source location without image merged into a location with one | keep the previous image | not executed | Yw7Merge.MergeLocationLosesImage | Yw7Merge.MergeLocationKeepsImage |
| src/pywaeon3/csv_timeline3.py:370-371 | `remove[vpId]` subscripts the method, which raises and is reported as a parse failure | characters ["1", "2"] with viewpoint "2" | move the viewpoint character to the front | not executed | CsvTimeline3.WithViewpointFailsOnListed | CsvTimeline3.WithViewpointIntended |
| src/pywaeon3/csv_timeline.py:280-281 | the same `remove[vpId]`, which fails the whole read | a row whose one character is also its viewpoint character | list the viewpoint character once, in front | not executed | CsvTimeline.ViewpointAlsoListed | CsvTimeline3.PutViewpoint |
| src/pywaeon3/dt_helper.py:23-37 | a missing month or day is never filled in, although test/test_dt_helper.py:17-19 expects it | "1910-04 21:23:00" comes back unchanged, not as "1910-04-01 21:23:00" | fill in a missing month and day | not executed | DtHelper.FixIsoDtKeepsMissingDay | DtHelper.FixIsoDtIntendedFillsDay |
| src/pywaeon3/dt_helper.py:23-37 | a bare year gets only a time appended | "1910" gives "1910 00:00:00", which a second call rejects | "1910-01-01 00:00:00", a fixed point of the normaliser | not executed | DtHelper.FixIsoDtNotIdempotentOnBareYear | DtHelper.FixIsoDtIntendedIdempotent |
