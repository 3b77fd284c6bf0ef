# See1Shot core, modelled in Dafny

See1Shot is a Unity editor window that captures the Game view: each enabled
camera renders into one shared off-screen texture, once for every enabled
image configuration (name, width, height, format), and the result is written
under the project's save folder. This project models the decision logic of
`See1Shot/Editor/See1Shot.cs` and proves what it does:

- **Naming** (`naming.dfy`): how the file name is built from the prefix,
  image name, size and suffix, and how the integers are written. The format
  switch picks the extension, and EXR throws before any path exists. The
  regular-expression sanitiser is modelled as a left-to-right scan and compared
  with an independent run-collapse definition. The single `_1` retry on a name
  clash is never re-checked, so a third identical capture overwrites the
  second. Also here: the batch directory, which gives a double slash when
  there is no time stamp, and the temporary size label.
- **GameViewSizes** (`sizes.dfy`): the two linear searches of the host's size
  table, by display name and by width and height, and the `IsSizeExist`
  wrappers. This includes the cut one character before the first `(`, which
  throws when `(` is the first character.
- **Strings** (`strings.dfy`): `IndexOf`, `IndexOfAny` and `Split`, with
  split/join round-trip lemmas.
- **Selection** (`selection.dfy`): the reorderable lists' remove callback.
  It clamps the selection, removes the first occurrence of the selected
  element, then clamps again. Also here: the preview index and its step
  buttons.
- **Capture** (`capture.dfy`): the camera setup scope, which saves four
  settings, overrides three and restores all four. Also the capture loop,
  which renders exactly the enabled, non-null cameras, in list order, each with
  the scoped settings, and leaves every camera as it found it.
- **Validation** (`validation.dfy`): the window's `_canProcess` flag, whether
  the scene's cameras differ from the listed ones (`Except` in both
  directions), and the project name taken from the assets path.

`host.dfy` holds the engine objects the core touches: cameras with their
four settings, render textures and colours. `configs.dfy` holds the two
configuration classes. `wrappers.dfy` holds `Option`, `Result` and the two
exceptions the modelled code can raise.

The file system's existence test, the platform's invalid-character sets,
the clock's time stamp, the host's size table and the scene's cameras are
parameters.

## Model

| member | source | states |
|---|---|---|
| Naming.IntToString | See1Shot/Editor/See1Shot.cs:478 | a leading `-` exactly for negative values, then decimal digits with no leading zero (`0` alone for zero) |
| Naming.IntToStringRoundTrip | See1Shot/Editor/See1Shot.cs:478 | the rendering of width and height is read back to the same integer |
| Naming.Extension | See1Shot/Editor/See1Shot.cs:463-475 | the format switch: `.png` for PNG, `.jpg` for JPG, and an out-of-range error exactly for EXR, which falls to `default` |
| Naming.FileName | See1Shot/Editor/See1Shot.cs:478 | the base name starts with the prefix, the image name and `-`, ends with the suffix, and has a non-empty size part between them |
| Naming.FileNameInjective | See1Shot/Editor/See1Shot.cs:478 | for the same prefix, name and suffix, equal base names mean equal width and equal height: different sizes get different names |
| Naming.MakeValidFileName | See1Shot/Editor/See1Shot.cs:489-495 | the result is never longer than the input; it is non-empty when the input is; it holds no invalid character when `_` is valid; it never ends in a dot; a name that ends in a dot ends in `_` (the lemma `MakeValidFileNameEndsInDot` fixes the whole result) |
| Naming.MakeValidFileNameIsCollapse | See1Shot/Editor/See1Shot.cs:492-494 | for a name not ending in a dot, the replacement equals the reference "each maximal invalid run becomes one `_`" |
| Naming.MakeValidFileNameDotTail | See1Shot/Editor/See1Shot.cs:492-494 | when `t` is the earliest run of invalid characters, then dots, reaching the end (`[inv]*\.+$`), `a + t` sanitises to the run collapse of `a` followed by one `_` |
| Naming.MakeValidFileNameEndsInDot | See1Shot/Editor/See1Shot.cs:492-494 | a name ending in a dot sanitises to the run collapse of the part before its earliest dot tail, then one `_` (`ab..` gives `ab_`) |
| Naming.MakeValidFileNameKeepsValid | See1Shot/Editor/See1Shot.cs:489-495 | a name with no invalid character and no trailing dot is unchanged |
| Naming.MakeValidFileNameFixpoint | See1Shot/Editor/See1Shot.cs:489-495 | a name is unchanged if and only if it is already valid |
| Naming.MakeValidFileNameIdempotent | See1Shot/Editor/See1Shot.cs:489-495 | sanitising twice equals sanitising once |
| Naming.PlainPath | See1Shot/Editor/See1Shot.cs:481 | the first candidate starts with `dir/`, never ends in a dot, has no invalid character after the directory when `_` is valid, and is `dir/` plus the file name with its extension when that name is already valid |
| Naming.RetryPath | See1Shot/Editor/See1Shot.cs:482 | the same for the retry candidate, with `_1` between the base name and the extension |
| Naming.SavePath | See1Shot/Editor/See1Shot.cs:458-482 | error (out of range) exactly for EXR; otherwise the plain candidate when it does not exist and the `_1` candidate when it does; the path starts with `dir/`, never ends in a dot, and when `_` is valid has no invalid character after the directory |
| Naming.RetryNotRechecked | See1Shot/Editor/See1Shot.cs:482 | two file systems that agree on the first candidate give the same path: the retry is never tested |
| Naming.RetryDiffersFromPlain | See1Shot/Editor/See1Shot.cs:481-482 | with a valid extension, the `_1` candidate differs from the plain one |
| Naming.ThirdCaptureOverwritesSecond | See1Shot/Editor/See1Shot.cs:481-482 | three captures of one config: the first takes the plain name, the second the `_1` name, and the third the same `_1` name again |
| Naming.CollisionExample | See1Shot/Editor/See1Shot.cs:478-482 | a 100x100 PNG `name` in `Shots/` whose plain name exists goes to `Shots//name-100x100_1.png` |
| Naming.ShotDirectory | See1Shot/Editor/See1Shot.cs:1138-1139 | when collecting, the directory is the save folder, `/` and the stamp; otherwise it is the save folder and `/` |
| Naming.UnstampedPathHasDoubleSlash | See1Shot/Editor/See1Shot.cs:1139 | without a stamped folder every saved path starts with the save folder and `//` |
| Naming.TempSizeName | See1Shot/Editor/See1Shot.cs:1155 | the temporary label starts with `temp_` and holds no `(` |
| GameViewSizes.DisplayName | See1Shot/Editor/See1Shot.cs:317-319 | an error exactly when the text starts with `(`; otherwise a prefix of the text. When the text holds a `(`, the prefix ends one character before the first `(`: that character is `(` and no earlier one is. When there is no `(`, the result is the whole text |
| GameViewSizes.LabelRecoveredFromDisplay | See1Shot/Editor/See1Shot.cs:313-319 | a `(`-free name is recovered from `name (…)` |
| GameViewSizes.TempSizeRecovered | See1Shot/Editor/See1Shot.cs:1155-1162 | a display text built for the temporary label, with or without a ` (…)` tail, cuts back to exactly that label. This is about one entry: whether a search reaches that entry depends on the entries before it |
| GameViewSizes.FindSizeIndexByName | See1Shot/Editor/See1Shot.cs:305-324 | the first entry whose name equals the text, or -1 when no name matches; an error at the first `(`-leading entry before any match |
| GameViewSizes.FindSizeIndexBySize | See1Shot/Editor/See1Shot.cs:326-348 | the first entry of that width and height, or -1 when none has it |
| GameViewSizes.IsSizeExistByName | See1Shot/Editor/See1Shot.cs:350-353 | fails exactly when some entry starts with `(` and every entry before it has a name other than the text; otherwise true exactly when some entry's name equals the text |
| GameViewSizes.IsSizeExistBySize | See1Shot/Editor/See1Shot.cs:355-358 | true exactly when some entry has that width and height |
| Strings.IndexOf | See1Shot/Editor/See1Shot.cs:317 | the least index of the character, or -1 exactly when it is absent |
| Strings.IndexOfAny | See1Shot/Editor/See1Shot.cs:998 | the least index of a character of the set, or -1 exactly when there is none |
| Strings.Split | See1Shot/Editor/See1Shot.cs:208 | at least one piece; the two lemmas below fix the pieces exactly |
| Strings.SplitPieces | See1Shot/Editor/See1Shot.cs:208 | no piece holds the separator; there is one piece exactly when the separator is absent |
| Strings.SplitJoinRoundTrip | See1Shot/Editor/See1Shot.cs:208 | joining the pieces with the separator gives back the string |
| Strings.SplitAround | See1Shot/Editor/See1Shot.cs:208 | splitting `a/b` is splitting `a`, then splitting `b` |
| Selection.Clamp | See1Shot/Editor/See1Shot.cs:575 | Unity's integer clamp: the bound for values outside it, the value itself inside; with crossed bounds the result is `lo` below and `hi` otherwise |
| Selection.RemoveFirst | See1Shot/Editor/See1Shot.cs:579 | an absent element leaves the list alone. Otherwise the list is one shorter: the elements before the first occurrence stay in place, and those after it move down by one |
| Selection.RemoveFirstCounts | See1Shot/Editor/See1Shot.cs:579 | removing a present element shortens the list by one; the result's multiset plus that one element is the original multiset |
| Selection.ReorderableList.RemoveSelected | See1Shot/Editor/See1Shot.cs:573-583 | the new list and index: an empty list is unchanged; otherwise the first occurrence of the clamped selection is removed; the index is clamped twice |
| Selection.RemoveSelectedEffect | See1Shot/Editor/See1Shot.cs:573-583 | the removed occurrence is at or before the selection; the others keep their order; one element goes; the new index is a row of the shorter list, or -1 once it is empty |
| Selection.RemoveFromEmptySelection | See1Shot/Editor/See1Shot.cs:575-582 | on an empty list the selection ends at -1 when it was negative and at 0 otherwise |
| Selection.Preview.RefreshPreview | See1Shot/Editor/See1Shot.cs:841-845 | nothing for an empty list; otherwise the index is clamped into the list and that image is shown |
| Selection.Preview.Step | See1Shot/Editor/See1Shot.cs:925-938 | the index moves by one and is clamped into the list, and that image is shown |
| Selection.Preview.RemoveSelectedConfig | See1Shot/Editor/See1Shot.cs:689-699 | the image list's removal as above, with the preview index set to the new selection |
| Capture.CaptureClearFlags | See1Shot/Editor/See1Shot.cs:406 | the clear mode changes exactly for a skybox camera that keeps alpha, and then becomes the solid colour |
| Capture.ScopedState | See1Shot/Editor/See1Shot.cs:400-410 | inside a scope, a clear background and no MSAA, with the capture clear mode; the target is untouched |
| Capture.CameraSetupScope.constructor | See1Shot/Editor/See1Shot.cs:400-410 | saves the four settings as they were and leaves the camera in the scoped state |
| Capture.CameraSetupScope.Dispose | See1Shot/Editor/See1Shot.cs:412-418 | the camera gets back exactly the saved settings |
| Capture.ScopedRender | See1Shot/Editor/See1Shot.cs:431-435 | the render uses the scoped settings with the shared target, and the camera ends as it began |
| Capture.ScopeRoundTrip | See1Shot/Editor/See1Shot.cs:400-418 | opening and disposing a scope restores every setting, whatever target was assigned inside |
| Capture.EnabledCameras | See1Shot/Editor/See1Shot.cs:425 | every camera it yields is the camera of an enabled entry, and each enabled entry's camera is yielded |
| Capture.EnabledCamerasAppend | See1Shot/Editor/See1Shot.cs:425 | selection distributes over concatenation: the cameras of the first part's enabled entries come first, in order |
| Capture.NonNull | See1Shot/Editor/See1Shot.cs:429 | every camera it keeps is in the input, and every non-null entry is kept |
| Capture.NonNullAppend | See1Shot/Editor/See1Shot.cs:429 | dropping nulls distributes over concatenation, so the survivors keep their order |
| Capture.ShotCameras | See1Shot/Editor/See1Shot.cs:425-429 | every rendered camera is the camera of an enabled entry, and each enabled entry with a camera is rendered |
| Capture.ShotCamerasAppend | See1Shot/Editor/See1Shot.cs:425-429 | the rendered cameras of a concatenation are those of the first part, then those of the second |
| Capture.ShotCamerasOne | See1Shot/Editor/See1Shot.cs:425-429 | one entry is rendered once exactly when it is enabled and its camera exists, and otherwise not at all. With the lemma above: one render per enabled entry, in list order |
| Capture.RenderCameras | See1Shot/Editor/See1Shot.cs:426-437 | one render per non-null camera, in order, each with its scoped settings and the shared target; every camera ends with its original settings |
| Capture.TakeShot | See1Shot/Editor/See1Shot.cs:421-437 | as above for the enabled, non-null cameras of the list; no other camera may change |
| Validation.CountEnabledCameras | See1Shot/Editor/See1Shot.cs:950 | positive exactly when some camera entry is enabled |
| Validation.CountEnabledImages | See1Shot/Editor/See1Shot.cs:951 | positive exactly when some image entry is enabled |
| Validation.IsValidFolder | See1Shot/Editor/See1Shot.cs:998 | true exactly for a non-empty folder with no invalid path character |
| Validation.CanProcess | See1Shot/Editor/See1Shot.cs:950-1002 | the `_canProcess` flag: true exactly when there are an enabled camera, an enabled image and a valid folder |
| Validation.CamerasOf | See1Shot/Editor/See1Shot.cs:859-860 | the `Select`: one camera per entry, at the same position |
| Validation.Except | See1Shot/Editor/See1Shot.cs:859-860 | the distinct elements of the first list that are not excluded, and all of them |
| Validation.IsCameraChanged | See1Shot/Editor/See1Shot.cs:856-862 | true exactly when a listed camera is missing from the scene or a scene camera is not listed |
| Validation.GetProjectName | See1Shot/Editor/See1Shot.cs:206-211 | an out-of-range index error exactly when the path has no `/`; otherwise a `/`-free piece |
| Validation.ProjectNameOfShortPath | See1Shot/Editor/See1Shot.cs:206-211 | with one `/` between two `/`-free pieces, the result is the first piece |
| Validation.ProjectNameOfDataPath | See1Shot/Editor/See1Shot.cs:206-211 | for `<parent>/<project>/<last>`, with no `/` in the last two pieces, the result is the second-to-last piece: the project folder for `…/Assets` |
| Configs.ImageConfig.constructor | See1Shot/Editor/See1Shot.cs:106-112 | the given name, size and format, enabled |
| Configs.CameraConfig.constructor | See1Shot/Editor/See1Shot.cs:82-87 | the given camera, enabled |

## Left out

- The window's immediate-mode drawing, its layout and the image list's Add menu (See1Shot.cs:601-604, 655-687): user interface only.
- The camera list's Sort button (See1Shot.cs:547-550): it sorts by depth into a new list and assigns it to the callbacks' captured `cameraList` only. After a sort, the remove callback edits that detached copy, not the settings' list. The model has one list per `ReorderableList` and does not capture this detachment.
- The reflection calls into the editor's size table (`AddCustomSize`, `RemoveCustomSize`, `SetSizeByIndex`, `GetGroup`, `GetCurrentSizeIndex`, `GetCurrentGroupType`): they are foreign code. The table is a parameter of the searches.
- Strings are sequences of Unicode characters, not of UTF-16 code units as in C#. Indices and lengths therefore differ for text outside the Basic Multilingual Plane. For example, for the display text `a`, U+1F600, `(16:9)`, the code's `IndexOf('(')` is 3 and `Substring(0, pren - 1)` keeps `a` plus a lone high surrogate (See1Shot.cs:317-319). `GameViewSizes.DisplayName` finds `(` at 2 and cuts to `a`.
- `IsDocked` (See1Shot.cs:1194-1203): it reads the window's docked state through reflection, which is foreign code.
- Rendering itself, pixel readback, encoding to PNG or JPG, the texture format choice and the temporary render texture: engine calls. A render is a recorded `RenderCall`.
- The float `multiplier` and the preview scale: floating point. Texture sizes are not modelled.
- Creating the directory and writing the bytes: file system effects. Only the existence test is kept, as the `fileExists` parameter.
- Loading, saving and deleting the settings through JSON and the editor preferences, with their dialogs: storage and user interface. The key's lower-casing is not modelled either.
- The coroutine that runs a batch: the progress bar, pausing, the time scale, the frame delay, and restoring the size in `finally`. These are host timing and effects. Only its directory and its temporary label are modelled.
- `RefreshCamera` rebuilding the list from the scene: the scene query is foreign. The scene's cameras are a parameter of `IsCameraChanged`.
- `CameraConfig`'s name and depth fields: `name` is never read, and `depth` is shown in the list's rows and is the Sort key. Neither enters a modelled operation.
- Unity's overloaded null test: a destroyed camera is modelled as `null`.
- Naming.MakeValidFileName: treats regex `$` as the end of the string only, not also before a final newline.
- Naming.IntToString: writes integers in the invariant form, not in a culture-specific one.
- The clock: the time stamp is a parameter of `ShotDirectory`.
- An exception thrown by a render inside the `using` block: not modelled. The model's renders always return.
- The Shot button's other gates: the outer disabled scope while a batch runs (See1Shot.cs:866), and `GUI.enabled &= Directory.Exists(saveFolder)` (See1Shot.cs:1007). The second keeps the button disabled while the folder does not exist on disk. There is also the hotkey (See1Shot.cs:1216-1221), which starts a batch whenever none is running, without reading `_canProcess`. `CanProcess` is only the flag, not whether a batch can start.

Where the code and its comments differ, the model follows the code. The
directory is written as the save folder, `/`, then the stamp. The file name
is then joined with a second `/`, so an unstamped batch writes to
`folder//name…`. The comment above the display-name search describes sizes
as `W:H`. The code only cuts at `(`, so a text without a parenthesis is
compared whole.
