# exif-tools, modelled in Dafny

exif-tools is a desktop photo tagger. It lets the user edit four fields of a photo: the
name, the date taken, and the latitude and longitude. Those edits go into the photo's
Exif dictionary, and the file may then be renamed. This project models the non-GUI core
of that program and proves properties about it:

- **The field-edit engine** (`editor/exif_editor_service.py`, with its older twin in
  `editor/image_widget.py`):
  - parsing the four edit strings, with `""` meaning "delete" and `None` meaning
    "unparseable";
  - trying the accepted date formats in priority order;
  - the tag updates in the `"0th"`, `"Exif"` and `"GPS"` sections (DateTime 306,
    DateTimeOriginal 36867, DateTimeDigitized 36868, GPS tags 1-4);
  - the decimal to degrees/minutes/seconds conversion;
  - the `_clean_metadata` normaliser, which also drops the MakerNote 37500;
  - the choice of the final path of a save.
- **The readers** (`editor/exif_utils.py`, with older variants in
  `editor/metadata_widget.py`): file name, camera name, GPS coordinates and date taken.
  Cross-module lemmas show that what the engine writes, the readers read back.
- **The validation rules** of the metadata panel (`editor/metadata_panel.py`).
- **The navigation state** of the image panel (`editor/image_panel.py`).
- **The shared constants and records** (`editor/shared_data.py`).
- **Small cores:**
  - the species-name test in `editor/utils.py` and `editor/main_window.py`;
  - the configuration toggles and splitter arithmetic of the main window;
  - the event bus;
  - the species selection of `detect_specie/main.py`.

**How Python is modelled:**
- **Values.** Coordinates are `real`. Python's `float()` is a decimal parser: sign, digits,
  a point, an exponent and surrounding whitespace. `int()` truncates and `round()` rounds
  half to even.
- **Dates.** `datetime.strptime`/`strftime` are modelled concretely for the
  `%Y %m %d %H %M %S` directives used by the accepted formats. This includes calendar
  validity and leap years. A space in a format matches a run of whitespace.
- **Exif dictionary.** piexif's loaded dictionary is a `map<string, Section>` whose
  sections are tag dictionaries of a `Value` datatype.
- **Objects that change state** are classes with `modifies` clauses:
  - the Exif dictionary being edited;
  - the style record;
  - the image record;
  - the metadata panel;
  - the image panel;
  - the event bus;
  - the main window.
- **Pure code** is functions, each with lemmas relating it to a partner.
- **Outside effects.** Opening an image, listing a folder, the user's answer in a file
  dialog, the classifier's ranking and the iNaturalist query are all parameters.
  File-system effects (insert Exif, rename, copy) are returned as a sequence of `Effect`
  values.

Modules, one per file:
- **Helpers:**
  - `Common`: Option, bytes, whitespace, split/join, strip, UTF-8;
  - `PyFloat`;
  - `PosixPath`;
  - `DateTime`;
  - `ExifData`.
- **One per source file:**
  - `ExifEditorService`;
  - `ExifUtils`;
  - `SharedData`;
  - `ImageWidget`;
  - `MetadataWidget`;
  - `MetadataPanel`;
  - `ImagePanel`;
  - `EditorUtils`;
  - `EventBus`;
  - `DetectSpecie`;
  - `MainWindow`.
- **`RoundTrips`:** engine-to-reader lemmas.

## Model

| member | source | states |
|---|---|---|
| Common.JoinSplit | editor/exif_utils.py:14 | Joining the pieces of `str.split(sep)` with `sep` gives back the text |
| Common.SplitAround | editor/utils.py:3 | Splitting `a + sep + b` gives the pieces of `a` followed by the pieces of `b` |
| Common.LStrip | editor/metadata_panel.py:151-152 | `str.lstrip`: the result is a suffix of the input, everything cut is whitespace, and it does not start with whitespace |
| Common.RStrip | editor/metadata_panel.py:151-152 | `str.rstrip`: the result is a prefix of the input, everything cut is whitespace, and it does not end with whitespace |
| Common.Strip | editor/metadata_panel.py:151-152 | `str.strip`: the result has no whitespace at either end |
| Common.StripIdempotent | editor/metadata_panel.py:278-281 | Stripping twice is stripping once |
| Common.CollapseWhitespace | editor/exif_utils.py:40-41 | `re.sub(r"\s+", " ", s)`: every whitespace left is a single space, no two are adjacent, emptiness and a leading space are kept, and the non-whitespace characters are those of the input, in order (NonSpace) |
| Common.CollapseStripNormalised | editor/exif_utils.py:40-41 | Collapsing then stripping gives a tidy text: single inner spaces and no space at either end |
| Common.DecodeEncode | editor/exif_editor_service.py:157 | UTF-8 encoding followed by strict decoding, or decoding with `errors="ignore"`, gives back the text |
| Common.DecodeStrictIgnore | editor/exif_utils.py:126 | On well-formed UTF-8, decoding with `errors="ignore"` equals strict decoding |
| PyFloat.ParseFloatStripped | editor/exif_editor_service.py:38 | `float()` ignores surrounding whitespace |
| PyFloat.NatTextParses | editor/exif_editor_service.py:38 | The decimal text of a natural number parses to that number |
| PyFloat.NegatedNatTextParses | editor/exif_editor_service.py:38 | A minus sign before the decimal text of n parses to -n |
| PyFloat.Trunc | editor/exif_editor_service.py:84-85 | `int(x)` truncates toward zero |
| PyFloat.RoundHalfEven | editor/exif_editor_service.py:86 | `round(x)` is within 1/2 of `x`, and a tie goes to the even integer |
| PosixPath.Splitext | editor/exif_editor_service.py:72 | `os.path.splitext`: the two parts concatenate to the path, and the extension is empty or a dot followed by no dot or slash |
| PosixPath.BasenameIsLastPiece | editor/metadata_widget.py:261-262 | The last piece of `path.split("/")` is `os.path.basename(path)` |
| DateTime.DaysInMonth | editor/exif_editor_service.py:29 | Every month has 28 to 31 days, and February has 29 exactly in leap years |
| DateTime.Strptime | editor/exif_editor_service.py:29 | `datetime.strptime` accepts only valid calendar dates |
| DateTime.BlankTextRejected | editor/exif_editor_service.py:29 | A text of only whitespace matches no format that starts with a directive |
| DateTime.StrptimeStrftime | editor/exif_utils.py:127-128 | Reading back a date written with a directive format gives the same date |
| DateTime.FirstMatch | editor/exif_editor_service.py:27-32 | The index found is the first format that parses, or -1 when none does |
| DateTime.ParseFirst | editor/exif_editor_service.py:27-32 | A date is found iff some accepted format parses the text, and it is a valid date |
| DateTime.EarlierFormatWins | editor/exif_editor_service.py:27-31 | When no earlier format parses, the result is the first format that does |
| SharedData.FormatsAreFull | editor/shared_data.py:16-17 | Storage is `%Y:%m:%d %H:%M:%S` and display is `%Y-%m-%d %H:%M:%S` |
| SharedData.StorageRoundTrip | editor/shared_data.py:16 | A date written in the storage format reads back unchanged |
| SharedData.DisplayRoundTrip | editor/shared_data.py:17 | A date written in the display format reads back unchanged |
| SharedData.AcceptedFormatsLayout | editor/shared_data.py:18-34 | The list has 15 entries: the display format 1st, the storage format 6th, and the first five begin `%Y-` |
| SharedData.BlankTextUnparsed | editor/shared_data.py:18-34 | No accepted format parses a blank text |
| SharedData.DisplayedDateReparses | editor/shared_data.py:18-34 | A displayed date re-parses through the priority list to the same date |
| SharedData.StoredDateReparses | editor/shared_data.py:18-34 | A stored date re-parses through the priority list to the same date: the five `%Y-` formats fail and the 6th succeeds |
| SharedData.SixthFormatWins | editor/shared_data.py:18-34 | A text whose 5th character is not `-` is decided by the 6th format |
| SharedData.ModeFor | editor/shared_data.py:57-59 | The mode is "light" iff the request lower-cases to "light", and "dark" otherwise, including None and "" |
| SharedData.ModeForIdempotent | editor/shared_data.py:57-59 | Asking again for the mode in force changes nothing |
| SharedData.StyleData.constructor | editor/shared_data.py:53-55 | The mode is "dark" or "light", chosen as set_mode chooses it, with the palette of that mode |
| SharedData.StyleData.SetMode | editor/shared_data.py:57-82 | The mode is set as above, and all ten colours belong to the mode |
| SharedData.ImageData.constructor | editor/shared_data.py:2-7 | No path, no image, no Tk image, and image_open False |
| ExifData.Get | editor/exif_utils.py:122 | `d.get(section, {}).get(tag)` finds a value iff both keys are present |
| ExifData.Put | editor/exif_editor_service.py:158 | Setting one tag changes that tag only |
| ExifData.Pop | editor/exif_editor_service.py:152 | `pop(tag, None)` removes that tag only |
| ExifData.PopAbsent | editor/exif_editor_service.py:152-154 | Popping an absent tag changes nothing and raises nothing |
| ExifData.ExifDict.Set | editor/exif_editor_service.py:158-160 | The in-place assignment leaves the dictionary equal to `Put` of the old one |
| ExifData.ExifDict.Remove | editor/exif_editor_service.py:152-154 | The in-place pop leaves the dictionary equal to `Pop` of the old one |
| ExifData.Cleaned | editor/exif_editor_service.py:107-130 | Cleaning keeps the section names |
| ExifData.CleanValueCanonical | editor/exif_editor_service.py:111-127 | A cleaned value has a canonical shape, and a value is left unchanged iff it already has one |
| ExifData.CleanValueIdempotent | editor/exif_editor_service.py:111-127 | Cleaning a value twice is cleaning it once |
| ExifData.CleanedIdempotent | editor/exif_editor_service.py:107-130 | Cleaning the whole dictionary twice is cleaning it once |
| ExifData.CleanedKeys | editor/exif_editor_service.py:107-130 | Non-dictionary sections are untouched, and every tag is kept except the MakerNote 37500 of "Exif" |
| ExifData.CleanedValues | editor/exif_editor_service.py:111-127 | Each surviving tag holds its cleaned value |
| ExifEditorService.ParseName | editor/exif_editor_service.py:19-20 | None gives "", the length is kept, and no forbidden character is left |
| ExifEditorService.ReplaceForbidden | editor/exif_editor_service.py:20 | Each of `\ / : " * ? < > \|` becomes `_` and every other character is kept |
| ExifEditorService.ParseNameIdempotent | editor/exif_editor_service.py:19-20 | Sanitising a sanitised name changes nothing |
| ExifEditorService.ParseDateToExif | editor/exif_editor_service.py:22-32 | "" gives the deletion sentinel ""; other text gives a date iff some accepted format parses it, and None otherwise |
| ExifEditorService.ParseDateToExifIdempotent | editor/exif_editor_service.py:22-32 | The storage text of a parsed date parses to itself |
| ExifEditorService.ParseCoordinate | editor/exif_editor_service.py:34-40 | "" means delete; otherwise float text gives its value, and None iff `float()` fails |
| ExifEditorService.DecimalToDms | editor/exif_editor_service.py:83-87 | For deg ≥ 0: d = trunc(deg), 0 ≤ m ≤ 59 and 0 ≤ s ≤ 600000 |
| ExifEditorService.DmsAccuracy | editor/exif_editor_service.py:83-87 | d + m/60 + s/36,000,000 is within 1/72,000,000 of deg |
| ExifEditorService.WithDate | editor/exif_editor_service.py:150-160 | "" pops the three date tags; other text stores the same encoded bytes in all three; nothing else changes |
| ExifEditorService.WithAxis | editor/exif_editor_service.py:132-148 | Clearing pops the axis's ref and triple. A value sets the ref to the positive letter iff it is ≥ 0, and the triple of its absolute value. No other GPS tag or section changes |
| ExifEditorService.DeleteAbsentDate | editor/exif_editor_service.py:150-155 | Deleting an absent date changes nothing |
| ExifEditorService.WithDateIdempotent | editor/exif_editor_service.py:150-160 | Writing the same date twice is writing it once |
| ExifEditorService.Edited | editor/exif_editor_service.py:89-105 | The edited dictionary still has the three editable sections |
| ExifEditorService.UpdateExifDate | editor/exif_editor_service.py:150-160 | The in-place update leaves `WithDate` of the old dictionary |
| ExifEditorService.UpdateExifLatitude | editor/exif_editor_service.py:141-148 | The in-place update leaves the N/S latitude edit of the old dictionary |
| ExifEditorService.UpdateExifLongitude | editor/exif_editor_service.py:132-139 | The in-place update leaves the E/W longitude edit of the old dictionary |
| ExifEditorService.CleanList | editor/exif_editor_service.py:118-127 | The new list built element by element is the cleaned list |
| ExifEditorService.CleanTags | editor/exif_editor_service.py:111-127 | Rewriting a tag dictionary over a snapshot of its items gives the cleaned section |
| ExifEditorService.CleanMetadata | editor/exif_editor_service.py:107-130 | The dictionary is cleaned in place to `Cleaned` of the old one |
| ExifEditorService.UpdateExifMetadata | editor/exif_editor_service.py:89-105 | The result is the loaded dictionary (or three empty sections) with the non-None edits applied, then cleaned |
| ExifEditorService.Filter | editor/exif_editor_service.py:73 | Only alphanumerics, space, `_` and `-` are kept, and a text of kept characters is unchanged |
| ExifEditorService.SafeName | editor/exif_editor_service.py:73 | The strict name has only kept characters and no trailing whitespace |
| ExifEditorService.FinalPathAsWritten | editor/exif_editor_service.py:69-76 | An explicit target wins, and with no name the path is unchanged |
| ExifEditorService.EmptySafeNameRenamesToExtension | editor/exif_editor_service.py:71-74 | A non-empty name that filters to nothing renames the file to "<dir>/<ext>", with no stem |
| ExifEditorService.ExclamationsFilterToNothing | editor/exif_editor_service.py:73 | "!!!" filters to nothing |
| ExifEditorService.FinalPath | editor/exif_editor_service.py:69-76 | An explicit target wins; otherwise dirname + strict name + extension; unchanged when the strict name is empty |
| ExifEditorService.FinalPathAgrees | editor/exif_editor_service.py:69-76 | The corrected path equals the path as written whenever the strict name is not empty |
| ExifEditorService.SaveExifAndRename | editor/exif_editor_service.py:42-81 | Nothing happens without an image and a path. An unparseable date, then an unparseable coordinate, raises before any write. Otherwise the Exif is inserted at the current path, then the file is renamed only if the final path differs. The final path is the one the code computes (FinalPathAsWritten), so a name that filters to nothing renames the file to its bare extension |
| ExifUtils.StemDropsExtension | editor/exif_utils.py:13-14 | Removing the last `.ext` keeps the inner dots |
| ExifUtils.StemWithoutDot | editor/exif_utils.py:13-14 | A base name without a dot gives "" |
| ExifUtils.GetNameIsStem | editor/exif_utils.py:13-14 | get_name is the base name cut at its last dot, or "" without one |
| ExifUtils.Tidy | editor/exif_utils.py:40-41 | The make or model text is tidy |
| ExifUtils.Merge | editor/exif_utils.py:46-48 | The merged name is tidy, and empty iff make and model are both empty |
| ExifUtils.GetDevice | editor/exif_utils.py:31-48 | None when loading failed, or iff the tidy make and model are both empty; otherwise a non-empty tidy name |
| ExifUtils.MergeBoth | editor/exif_utils.py:46-48 | When the model does not start with the make, ignoring case, the name is "make model" |
| ExifUtils.MergeOne | editor/exif_utils.py:46-48 | With one side empty, the name is the other side |
| ExifUtils.JoinedNormalised | editor/exif_utils.py:48 | Two tidy texts joined by one space are tidy, so the final strip changes nothing |
| ExifUtils.CheckPairs | editor/exif_utils.py:61-65 | True iff every element is a pair whose denominator is not 0 |
| ExifUtils.CheckValidity | editor/exif_utils.py:56-66 | True iff the value is present, a list or tuple of exactly three pairs, with no zero denominator |
| ExifUtils.GetGeotagging | editor/exif_utils.py:69-98 | Both coordinates or neither, present iff there is a GPS section and both triples pass the check. Each coordinate is d + m/60 + s/3600, negated exactly when its ref reads "S" (latitude) or "W" (longitude), a missing ref reading as "N" or "E" |
| ExifUtils.MissingRefsAreNorthEast | editor/exif_utils.py:90-96 | Missing refs read as north and east |
| ExifUtils.GetCoordinates | editor/exif_utils.py:101-106 | Coordinates only when loading succeeded and there is a GPS section |
| ExifUtils.TryDate | editor/exif_utils.py:122-130 | An attempt succeeds only on a bytes value, and it yields a valid display-format date |
| ExifUtils.FirstDateIndex | editor/exif_utils.py:121-132 | The first attempt in list order that succeeds, or -1 |
| ExifUtils.FirstDate | editor/exif_utils.py:121-132 | A date is found iff some attempt succeeds |
| ExifUtils.GetDateTaken | editor/exif_utils.py:109-132 | A date only when loading succeeded, and it is in display format |
| ExifUtils.DateTakenPriority | editor/exif_utils.py:115-119 | DateTimeOriginal, then DateTimeDigitized, then DateTime |
| ImageWidget.ParseDate | editor/image_widget.py:155-164 | A date iff some accepted format parses the text |
| ImageWidget.BlankDateUnparsed | editor/image_widget.py:155-164 | A blank text, "" included, is not a date |
| ImageWidget.ParseDateAgrees | editor/image_widget.py:155-164 | On non-empty text it agrees with the service's parse_date_to_exif |
| ImageWidget.LegacyKeepsDates | editor/image_widget.py:189-190 | The legacy save never deletes the date tags |
| ImageWidget.SaveData | editor/image_widget.py:106-130 | Without an image and a path nothing is written. Otherwise the edited dictionary is written to new_path, or else to the current path |
| ImageWidget.Save | editor/image_widget.py:148-153 | Saves only when an image is open, to the image's own path |
| ImageWidget.SaveAs | editor/image_widget.py:132-146 | Nothing without an open image or a chosen target; otherwise writes only into the chosen target |
| ImageWidget.CloseImage | editor/image_widget.py:268-281 | The image record is back in its initial state |
| MetadataWidget.GetNameAgrees | editor/metadata_widget.py:261-262 | Splitting on "/" gives the same name as exif_utils.get_name |
| MetadataWidget.GetDevice | editor/metadata_widget.py:265-283 | A name iff loading succeeded and there is a "0th" section |
| MetadataWidget.MergedUnstripped | editor/metadata_widget.py:279-283 | The older name is the newer one before its final strip |
| MetadataWidget.LegacyDeviceUnstripped | editor/metadata_widget.py:265-283 | The older reader gives "" where the newer gives None, and otherwise the unstripped name |
| MetadataWidget.MergedTrailingSpace | editor/metadata_widget.py:283 | A make without a model gives "make " with a trailing space |
| MetadataWidget.GetGeotagging | editor/metadata_widget.py:294-319 | None iff there is no GPS section or a triple is not truthy. It raises iff a triple or a ref cannot be read or divided. Otherwise it gives d + m/60 + s/3600, negated exactly when the ref reads "S" (latitude) or "W" (longitude) |
| MetadataWidget.ValidTripleComputable | editor/metadata_widget.py:302-310 | A triple that passes the newer check gives the same degrees here |
| MetadataWidget.LegacyGeotaggingAgrees | editor/metadata_widget.py:294-319 | Where both refs decode, it agrees with the newer reader |
| MetadataWidget.LegacyMissingRefRaises | editor/metadata_widget.py:313 | A missing latitude ref raises here, where the newer reader defaults it to N |
| MetadataWidget.ZeroDenominatorRaises | editor/metadata_widget.py:302-310 | A zero denominator raises here, where the newer reader rejects the triple |
| MetadataWidget.GetDateTaken | editor/metadata_widget.py:232-246 | Only the "0th" DateTime is read; what it returns is a display-format date |
| MetadataWidget.LegacyDateAgrees | editor/metadata_widget.py:232-246 | It agrees with the newer reader when the two Exif date tags are unreadable |
| MetadataWidget.CoordinatesValid | editor/metadata_widget.py:127-134 | Empty fields are invalid |
| MetadataWidget.ValidCoordinatesAreWritten | editor/metadata_widget.py:127-134 | Accepted coordinates are numbers in [-90,90] × [-180,180] that the engine writes |
| MetadataWidget.DateValid | editor/metadata_widget.py:136-142 | An empty date is invalid |
| MetadataWidget.ValidDateIsStored | editor/metadata_widget.py:136-142 | An accepted date is parsed by the engine through the display format |
| MetadataPanel.Position | editor/metadata_panel.py:44-54 | Each field has its place in the field list |
| MetadataPanel.FieldNamed | editor/metadata_panel.py:44-54 | The field found for a key has that key |
| MetadataPanel.Filled | editor/metadata_panel.py:216-241 | Every field gets a text |
| MetadataPanel.CoordinatesOfStripped | editor/metadata_panel.py:268-276 | Reading the stripped texts gives the same pair. The pair exists exactly when both stripped texts parse, and it holds their values |
| MetadataPanel.CoordsAcceptableMeaning | editor/metadata_panel.py:150-169 | Both blank is accepted as deletion, and one blank is rejected. Otherwise both must parse and satisfy -90 ≤ lat ≤ 90 and -180 ≤ lon ≤ 180 |
| MetadataPanel.ValidatedDateMeaning | editor/metadata_panel.py:171-189 | Blank is kept. No match is invalid. A match is rewritten in display format by the first format that parses |
| MetadataPanel.WithPrefix | editor/metadata_panel.py:278-281 | The new name has no whitespace at either end |
| MetadataPanel.CheckCoords | editor/metadata_panel.py:150-169 | The step-by-step check decides as CoordsAcceptable |
| MetadataPanel.FirstParse | editor/metadata_panel.py:180-185 | The loop over the formats finds the first that parses |
| MetadataPanel.CheckDate | editor/metadata_panel.py:171-189 | The step-by-step check gives ValidatedDate |
| MetadataPanel.EditFinishedStep | editor/metadata_panel.py:135-140 | Both checks run on the texts. The coordinates warning wins over the date warning. The change is accepted only when both checks pass |
| MetadataPanel.RevalidateStep | editor/metadata_panel.py:203-205 | The coordinates are checked only after the date is accepted. The result says which warning is shown and whether the change is accepted |
| MetadataPanel.MetadataPanel.constructor | editor/metadata_panel.py:56-63 | Empty fields, no snapshot, the default message |
| MetadataPanel.MetadataPanel.ValidateCoords | editor/metadata_panel.py:150-169 | Returns CoordsAcceptable of the fields, sets the warning on failure, and changes nothing else |
| MetadataPanel.MetadataPanel.ValidateDate | editor/metadata_panel.py:171-189 | On success the date field holds the validated text. On failure the warning is set and the field is unchanged |
| MetadataPanel.MetadataPanel.OnEditFinished | editor/metadata_panel.py:135-140 | The date is validated first. metadata_changed is emitted only when both validations succeed |
| MetadataPanel.MetadataPanel.Revalidate | editor/metadata_panel.py:203-205 | The date is validated, and the coordinates only when the date is accepted; metadata_changed is emitted and the OK message shown only when both succeed |
| MetadataPanel.MetadataPanel.Fill | editor/metadata_panel.py:239-240 | Each field holds `data.get(key, "")` |
| MetadataPanel.MetadataPanel.ClearAll | editor/metadata_panel.py:191-195 | All fields are empty, there is no snapshot, and the message is the default |
| MetadataPanel.MetadataPanel.LoadFromImage | editor/metadata_panel.py:216-241 | The snapshot is the loaded data and the fields are filled from it |
| MetadataPanel.MetadataPanel.ResetField | editor/metadata_panel.py:197-205 | A no-op without a snapshot or for an unknown key; otherwise the field gets its snapshot value, "" by default, and the fields are validated again |
| MetadataPanel.MetadataPanel.ResetAll | editor/metadata_panel.py:207-214 | A no-op without a snapshot; otherwise every field gets its snapshot value and the fields are validated again |
| MetadataPanel.MetadataPanel.SetNamePrefix | editor/metadata_panel.py:278-281 | Only the name field changes, to `(prefix + " " + name.strip()).strip()` |
| MetadataPanel.AcceptedCoordinatesWritten | editor/metadata_panel.py:158-169 | Accepted non-blank coordinates are in range and are written by the engine as those degrees |
| MetadataPanel.BlankFieldsFailSave | editor/metadata_panel.py:151-156 | Whitespace-only fields pass the panel but make the engine reject the save |
| MetadataPanel.ValidatedDateIdempotent | editor/metadata_panel.py:171-189 | Validating a validated date changes nothing |
| MetadataPanel.ValidatedDateStored | editor/metadata_panel.py:171-189 | The rewritten text stores the same date as the stripped typed text |
| MetadataPanel.DisplayedForm | editor/metadata_panel.py:186 | A displayed date is non-empty and trimmed, and re-parses to itself |
| MetadataPanel.WithPrefixJoins | editor/metadata_panel.py:278-281 | The result is "prefix name", or the stripped prefix alone for a blank name |
| ImagePanel.ImagesIn | editor/image_panel.py:192-199 | Every listed image path is non-empty |
| ImagePanel.ImagesInMembers | editor/image_panel.py:192-199 | A path is listed iff it is the folder joined with a listed file whose lower-cased extension is an image extension |
| ImagePanel.ImagesInSound | editor/image_panel.py:192-199 | Every listed path is the folder joined with an image file of the listing |
| ImagePanel.ImagesInComplete | editor/image_panel.py:192-199 | Every image file of the listing appears, joined with the folder, among the listed paths |
| ImagePanel.IndexOf | editor/image_panel.py:201 | `list.index`: the first position holding the path |
| ImagePanel.NextIndex | editor/image_panel.py:246 | The next index is in [0, n) |
| ImagePanel.PrevIndex | editor/image_panel.py:253 | The previous index is in [0, n) |
| ImagePanel.PrevWraps | editor/image_panel.py:253 | Going back from 0 gives n − 1 |
| ImagePanel.PrevUndoesNext | editor/image_panel.py:246-253 | Previous undoes next, and next undoes previous |
| ImagePanel.IndexNextThenPrev | editor/image_panel.py:246-253 | Stepping to the next image and then back returns to the same index |
| ImagePanel.IndexPrevThenNext | editor/image_panel.py:246-253 | Stepping to the previous image and then forward returns to the same index |
| ImagePanel.CopyName | editor/image_panel.py:292-299 | The suggested name is "stem-copy.ext" |
| ImagePanel.SaveValues | editor/image_panel.py:266-276 | The save succeeds iff the values parse. The final path is the service's path as written (FinalPathAsWritten), and the effects are insert-then-rename |
| ImagePanel.ImagePanel.constructor | editor/image_panel.py:43-46 | Empty list, index -1, no path, no image |
| ImagePanel.ImagePanel.LoadImage | editor/image_panel.py:208-220 | Only the image changes: it is open when the path is set and opening succeeds |
| ImagePanel.ImagePanel.BuildImageListFromPath | editor/image_panel.py:192-201 | The list is the folder's images. The index is the path's position, and `index` raises when the path is not listed |
| ImagePanel.ImagePanel.LoadFromPath | editor/image_panel.py:203-206 | The path is set, the list is rebuilt and the image is loaded |
| ImagePanel.ImagePanel.NextImage | editor/image_panel.py:243-248 | A no-op on an empty list or a negative index. Otherwise the index moves +1 mod n and the path follows it |
| ImagePanel.ImagePanel.PrevImage | editor/image_panel.py:250-255 | A no-op on an empty list or a negative index. Otherwise the index moves −1 mod n and the path follows it |
| ImagePanel.ImagePanel.NextThenPrev | editor/image_panel.py:243-255 | next then prev restores the index and the path |
| ImagePanel.ImagePanel.CloseImage | editor/image_panel.py:222-229 | Empty list, index -1, no path, no image |
| ImagePanel.ImagePanel.Renamed | editor/image_panel.py:279-282 | The path becomes the final path, and only the slot at an in-bounds index is replaced |
| ImagePanel.ImagePanel.Save | editor/image_panel.py:257-285 | Nothing without a path, an image and a callable. The saved path is the service's path as written for the typed name (FinalPathAsWritten). The path and slot change only when the saved path is non-empty and differs |
| ImagePanel.ImagePanel.SaveAs | editor/image_panel.py:287-322 | Nothing without a path, an image, a callable and a target. Otherwise a copy to the target, then the Exif inserted into the target, with no rename |
| EditorUtils.HasSpecie | editor/utils.py:1-4 | Raises iff there are more than two words and the first is empty, or it is capitalised and the second is empty. True iff there are more than two words, the first capitalised and the second lower-case |
| EditorUtils.NoExtensionNoSpecie | editor/utils.py:1-7 | A name without an extension is "", and has no species |
| EditorUtils.SpeciesFileName | editor/utils.py:1-7 | "Genus species rest.ext" has a species |
| EventBus.Subscribed | editor/event_bus.py:5-8 | The callback is appended to its event's list, created when missing, and the other lists are unchanged |
| EventBus.Calls | editor/event_bus.py:10-12 | Each callback is called once, in order, with the data |
| EventBus.SubscribeTwiceCallsTwice | editor/event_bus.py:8 | A callback subscribed twice is called twice |
| EventBus.SubscribeKeepsOthers | editor/event_bus.py:5-8 | Subscribing does not change what other event types call |
| EventBus.EventBus.constructor | editor/event_bus.py:2-3 | No listeners |
| EventBus.EventBus.Subscribe | editor/event_bus.py:5-8 | The listeners become `Subscribed` of the old ones |
| EventBus.EventBus.Publish | editor/event_bus.py:10-12 | The calls made are the event's callbacks in order, with the data. An unknown event calls nothing and adds no key |
| DetectSpecie.LastTwoMeaning | detect_specie/main.py:7 | `parts[-2:]` is the last two pieces, or all of them when there are fewer than two |
| DetectSpecie.UnknownClassHasNoName | detect_specie/main.py:5-7 | An unknown id gives "" |
| DetectSpecie.NameWithoutUnderscoreKept | detect_specie/main.py:5-7 | A name without "_" is returned as is |
| DetectSpecie.LatinNameOfFullName | detect_specie/main.py:5-7 | "x_Genus_species" gives "Genus species" |
| DetectSpecie.IsSpeciesAtLocationMeaning | detect_specie/main.py:10-32 | False without asking when the name is empty or a coordinate is missing; otherwise the query's answer |
| DetectSpecie.FirstAccepted | detect_specie/main.py:47-56 | The first class, in ranking order, that clears 0.2 and, with a location, is observed there |
| DetectSpecie.FindSpecie | detect_specie/main.py:35-59 | The loop returns the Latin name of the first accepted class, or "" |
| DetectSpecie.FirstAcceptedIs | detect_specie/main.py:47-56 | The first accepted position is the one before which nothing is accepted |
| DetectSpecie.SelectedClearsThreshold | detect_specie/main.py:41-50 | The answer is "" or the name of a class scoring at least 0.2 |
| DetectSpecie.TopClassWithoutLocation | detect_specie/main.py:53-54 | Without a location, a top class that clears the threshold is the answer |
| DetectSpecie.NothingClearsThreshold | detect_specie/main.py:41-59 | Without a location, when the best score is below 0.2 the answer is "" |
| MainWindow.OtherMode | editor/main_window.py:297 | Dark gives light and anything else gives dark |
| MainWindow.OtherMap | editor/main_window.py:315-317 | "french" gives "international" and anything else gives "french" |
| MainWindow.ThemeToggleInvolution | editor/main_window.py:296-305 | Toggling twice restores a valid mode |
| MainWindow.MapSwitchInvolution | editor/main_window.py:314-323 | Switching twice restores a valid map; an unknown map becomes "french" |
| MainWindow.Thirds | editor/main_window.py:381-384 | `[w//3, w − w//3]` sums to w, and the first part is not larger than the second |
| MainWindow.Halves | editor/main_window.py:381-384 | `[h//2, h − h//2]` sums to h, and the parts differ by at most one |
| MainWindow.Max1 | editor/main_window.py:381-382 | `max(1, n)` is at least 1, and is n when n ≥ 1 |
| MainWindow.HasSpecie | editor/main_window.py:491-493 | False for None or "". True iff there are more than two words, the first capitalised and the second lower-case; empty words give False rather than an error |
| MainWindow.HasSpecieAgrees | editor/main_window.py:491-493 | It agrees with utils.has_specie wherever that returns, and is False where that raises |
| MainWindow.AcceptedSpecieIsRecognised | editor/main_window.py:480-493 | After an accepted species is prefixed to the name, the name has a species |
| MainWindow.OnSpecieDetected | editor/main_window.py:480-489 | The prefix is set iff the species is non-empty, the result is for the current image, and the user accepts |
| MainWindow.MainWindow.constructor | editor/main_window.py:40-41 | The theme comes from the configuration, as set_mode chooses it |
| MainWindow.MainWindow.ToggleTheme | editor/main_window.py:296-305 | The mode flips, "theme" is saved, and the geometry is unchanged |
| MainWindow.MainWindow.SwitchMap | editor/main_window.py:314-323 | "map" becomes the other map, and nothing else changes |
| MainWindow.MainWindow.MaybeGetSpecie | editor/main_window.py:434-461 | A launch iff recognition is on, an image is open, the model is ready and the name has no species |
| MainWindow.MainWindow.SwitchSpecieRecognition | editor/main_window.py:325-332 | "recognition" is negated; turning it off launches nothing, and turning it on launches a detection of the open image, with its coordinates, iff an image is open, the model is ready and the name has no species |
| MainWindow.MainWindow.ResetWindow | editor/main_window.py:378-395 | Size 1200×800, splits [400, 800] and [400, 400], and all three saved to the configuration |
| MainWindow.MainWindow.RestoreLayout | editor/main_window.py:397-418 | Raises exactly when Restored is None; otherwise the geometry and both splitters become the restored layout, and the settings are not touched |
| MainWindow.RestoreGeometry | editor/main_window.py:398-403 | The geometry step yields RestoredGeometry: the four saved values, the default size, or a raise |
| MainWindow.RestoreSplit | editor/main_window.py:405-418 | A splitter step yields RestoredSplit: the two saved values, the default split, or a raise |
| MainWindow.RestoredGeometryMeaning | editor/main_window.py:398-403 | Saved geometry is used only as a list of four values, all accepted by int(); any other shape gives 1200×800 at the current position |
| MainWindow.RestoredSplitMeaning | editor/main_window.py:405-418 | Saved splits are used only as lists of two values, both accepted by int(); any other shape gives the default split |
| MainWindow.RestoredMeaning | editor/main_window.py:397-418 | The layout is restored iff the geometry and both splits are; the default splits come from the restored width and height |
| MainWindow.SavedLayoutRestores | editor/main_window.py:378-418 | A layout saved as reset_window saves it is restored unchanged by restore_layout |
| RoundTrips.DmsValueReads | editor/exif_utils.py:56-88 | A triple written by the engine passes the reader's check and reads back as its degrees |
| RoundTrips.DmsValueClean | editor/exif_editor_service.py:107-130 | The normalisation leaves a written degrees/minutes/seconds triple unchanged |
| RoundTrips.EditedLatitude | editor/exif_editor_service.py:141-148 | After a latitude edit and normalisation, the reference tag holds N or S by sign and the latitude tag holds the triple of its absolute value |
| RoundTrips.EditedLongitude | editor/exif_editor_service.py:132-139 | After a longitude edit and normalisation, the reference tag holds E or W by sign and the longitude tag holds the triple of its absolute value |
| RoundTrips.CoordinatesRoundTrip | editor/exif_editor_service.py:132-148 | Written coordinates read back, sign included, within 1/72,000,000 of a degree |
| RoundTrips.SignedReading | editor/exif_utils.py:93-96 | A value written as \|v\| with its hemisphere reference reads back signed like v |
| RoundTrips.ClearedLatitudeReadsNothing | editor/exif_editor_service.py:141-145 | After clearing the latitude, no coordinates are read |
| RoundTrips.ClearedLongitudeReadsNothing | editor/exif_editor_service.py:132-136 | After clearing the longitude, no coordinates are read |
| RoundTrips.DateRoundTrip | editor/exif_editor_service.py:150-160 | A typed date the engine accepts is shown back by the reader as that date in display format |
| RoundTrips.DeletedDateReadsNothing | editor/exif_editor_service.py:150-155 | A deleted date reads as no date |
| RoundTrips.EditedKeeps0th | editor/exif_editor_service.py:89-105 | Every "0th" tag other than DateTime is kept, cleaned |
| RoundTrips.EditedAddsNo0th | editor/exif_editor_service.py:89-105 | No "0th" tag other than DateTime is added |
| RoundTrips.DeviceTagKept | editor/exif_editor_service.py:89-105 | The Make and Model tags read the same after an edit as before it |
| RoundTrips.DeviceUnchanged | editor/exif_utils.py:31-48 | The edits do not change the camera name that is read |

## Left out

- **Floating point.** piexif's byte encoding, `piexif.load`/`dump`/`insert` and IEEE floats
  are not modelled:
  - the loaded dictionary is a parameter;
  - coordinates are exact reals;
  - `float()` does not accept "nan", "inf" or underscores, and `int(nan)` is not modelled.
- **Digits.** Only the ASCII digits 0-9 are digits here. Python's `float()` and the `\d`
  of `strptime`'s patterns also accept other Unicode decimal digits (such as "٣"); texts
  written with them are rejected by the model and accepted by the program.
- **Year padding.** `strftime("%Y")` is taken to write four digits, with leading zeros.
  Some C libraries do not pad years below 1000, so for those years
  SharedData.StorageRoundTrip and RoundTrips.DateRoundTrip rely on that platform
  behaviour.
- **Character tests.** `str.isalnum` is a parameter `isAlnum`. `isupper`, `islower` and
  `lower` are ASCII only.
- **File system.** These are effect values or parameters and are not performed:
  - `os.rename` and `shutil.copy2`;
  - `os.listdir` (the listing is a parameter in its order: the ctime sort is not
    modelled);
  - `getsize`/`getmtime`;
  - `Image.open`/`exif_transpose` (a boolean `opens`).
- **GUI.**
  - Qt and Tk widgets, pixmaps, toasts and dialogs are not modelled. The dialog's answer
    is a parameter.
  - The signals `image_opened`/`image_closed` are not modelled. `metadata_changed` is a
    counter of emissions.
  - Colours and palettes are reduced to one palette value per mode.
- **Layout.** In `reset_window` and `restore_layout`, Qt's own clamping of sizes and the
  map panel's position and zoom are left out.
- **Configuration.**
  - `int()` of strings and floats read from the configuration is left out; only integers
    and booleans convert.
  - A truthy theme value that is not a string, which `.lower()` would reject, is read as
    no request.
  - JSON file I/O in `editor/config_manager.py` is not part of this model.
- **EventBus.EventBus.Publish:** callbacks are opaque values. The effect of a callback
  that subscribes during `publish` is not modelled.
- **DetectSpecie.FindSpecie:**
  - Inference and numpy's `argsort` are given as the scores and the ranking.
  - The iNaturalist request is an oracle.
  - The ranking is not required to sort the scores, so NothingClearsThreshold assumes it.
- **MetadataPanel.MetadataPanel.LoadFromImage:** the texts are taken as given. How they
  are rendered from the image's readers is left out, and so are `set_coordinates` and
  `get_editable_values`.
- **Other code.** These are not part of this model:
  - the legacy `get_coordinates` wrapper of `editor/metadata_widget.py`;
  - the widget event handlers;
  - threads and queue polling;
  - network update checks;
  - `bump_version.py`.

## Findings

| source | as written | input that shows it | evidently intended | confidence | as-written member | corrected member |
|---|---|---|---|---|---|---|
| editor/exif_editor_service.py:71-74 | A non-empty name is filtered to the strict characters and then used, even when nothing is left | name "!!!" for "/photos/a.jpg" gives "/photos/.jpg": the photo becomes a hidden file with no stem | keep the current path when the strict name is empty | not executed | ExifEditorService.FinalPathAsWritten | ExifEditorService.FinalPath |

The save operations (ExifEditorService.SaveExifAndRename, ImagePanel.SaveValues and
ImagePanel.ImagePanel.Save) use the path as written, so they rename the way the program
does. ExifEditorService.FinalPath is the intended path, and ExifEditorService.FinalPathAgrees
shows it differs from the written one only when the name filters to nothing.
