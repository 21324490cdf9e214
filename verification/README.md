# UnityAI core rules in Dafny

This project models the pure, sequential rules buried inside the UnityAI
sample scenes and proves properties of them. It covers:

- **WordPiece tokenizer** (`RunMiniLM.GetTokens`). The text is lower-cased
  and split on whitespace. Each word is cut greedily into the longest
  vocabulary entries: the first piece is a plain prefix, later pieces carry
  `##`. The first vocabulary index of every piece is emitted between the
  markers 101 and 102. The vocabulary is the asset text split on `"\r\n"`.
  The two ways the loop goes wrong are results of the model, not
  preconditions. `OutOfRange` is a negative `Substring` length. `Diverges`
  is a zero-length piece matched over and over.
- **CLIP gallery** (`RunCLIP`). This covers:
  - the tag catalogue (`tags.json` → English list and en→ja table);
  - the show/hide predicate and the selected-tag state;
  - the classify outcome applied to an image's tag list;
  - the filter buttons;
  - the accepted-extension filter and the CSV export;
  - the busy flag that locks the folder and export buttons.
- **Tag chips of one card** (`ImageCard`): which tags become chips, their
  text and colour band, and the reported count.
- **YOLO bookkeeping** (`YoloCamera`): the centres-to-corners matrix, the
  camera index guard, the capture/inference guards, the capture file name
  and the label report.
- **Demo server** (`demo_server.py`): the `/classify` response. It has
  `top_k` catalogue tags, drawn from distinct catalogue positions, with
  their Japanese names and scores in [0.3, 0.9], stably sorted by
  descending score. The tags are distinct names only when the catalogue
  repeats no English name.

Null references of the C# and Python sources are `Option` values. A null
dereference or an exception the source does not catch is a `None` or error
constructor. Scores are `real` and are compared with exactly the operators
of the source. Randomness, the clock, the webcam, texture loading and
number formatting come in as parameters.

Files:

| file | module | models |
|---|---|---|
| `text.dfy` | `Text` | `ToLower`, `String.Split`, `Split("\r\n")`, `String.Join` |
| `wordpiece.dfy` | `WordPiece` | `RunMiniLM.GetTokens` |
| `tagcatalog.dfy` | `Optional`, `TagCatalog` | `tags.json` reading |
| `cliptags.dfy` | `ClipTags` | tag lists, filter predicate, classify update, filter buttons |
| `clipexport.dfy` | `ClipExport` | extension filter, CSV export |
| `gallery.dfy` | `ClipGallery` | the gallery state, card activity and the busy flag |
| `imagecard.dfy` | `ImageCardView` | `ImageCard.UpdateTagDisplay` and `CreateTagChip` |
| `yolo.dfy` | `YoloBoxes`, `YoloCamera` | box matrix, camera, capture, labels |
| `demoserver.dfy` | `DemoServer` | `classify` |

## Model

| member | source | states |
|---|---|---|
| Text.Lower | Assets/MiniLM/RunMiniLM.cs:110 | Lower-casing keeps the length and maps each character on its own: A-Z go to a-z, everything else is unchanged. |
| Text.LowerIsIdempotent | Assets/MiniLM/RunMiniLM.cs:110 | After lower-casing no upper-case ASCII letter is left, and lower-casing again changes nothing. |
| Text.Split | Assets/MiniLM/RunMiniLM.cs:110 | Splitting on whitespace gives one more entry than there are separators, and no entry contains a separator. Empty entries are kept. |
| Text.SplitRestores | Assets/MiniLM/RunMiniLM.cs:110 | The entries of a split, with the separators put back between them, are the original text. |
| Text.SplitJoin | Assets/Yolo/YoloCamera.cs:83 | Splitting a string joined by a separator character gives back the joined list when no entry contains a separator. |
| Text.SplitNoSeparator | Assets/Yolo/YoloCamera.cs:83 | A string without a separator splits into itself alone. |
| Text.SplitLines | Assets/MiniLM/RunMiniLM.cs:32 | The vocabulary split always has an entry. A non-empty first entry starts with the text's first character, and the text does not start with "\r\n". |
| Text.SplitLinesRestores | Assets/MiniLM/RunMiniLM.cs:32 | The vocabulary entries joined with "\r\n" are exactly the asset text, so a trailing line break yields a final empty entry. |
| Text.SplitLinesHaveNoBreak | Assets/MiniLM/RunMiniLM.cs:32 | No vocabulary entry contains "\r\n". |
| WordPiece.IndexOf | Assets/MiniLM/RunMiniLM.cs:125 | Array.IndexOf gives -1 exactly when the piece is absent, and otherwise the first position holding it. |
| WordPiece.LongestMatch | Assets/MiniLM/RunMiniLM.cs:121-126 | The count-down from the word end stops at the longest piece starting at `start` that is in the vocabulary. Every longer piece is absent. It gives start-1 when none matches. |
| WordPiece.TokenizeWord | Assets/MiniLM/RunMiniLM.cs:119-134 | A completed word is tiled greedily: every piece is the longest vocabulary match where the previous one ended. An empty result means no prefix matched. A throw means some position has no continuation. Divergence needs "" or "##" in the vocabulary. |
| WordPiece.GreedyIsComputed | Assets/MiniLM/RunMiniLM.cs:119-134 | The greedy tiling is unique: any tiling whose pieces are each the longest match is the one the loop computes. |
| WordPiece.LongestMatchIsLongest | Assets/MiniLM/RunMiniLM.cs:121-126 | Whatever end is the longest match, the count-down finds exactly that end. |
| WordPiece.WordInVocabulary | Assets/MiniLM/RunMiniLM.cs:126-130 | A word that is itself a vocabulary entry contributes a single piece: the whole word. |
| WordPiece.UnmatchedWordIsDropped | Assets/MiniLM/RunMiniLM.cs:121-126 | A word contributes no ids exactly when no prefix of it, down to the empty one, is in the vocabulary. |
| WordPiece.UnmatchedSuffixThrows | Assets/MiniLM/RunMiniLM.cs:122-124 | After a matched first piece with no continuation down to "##", Substring gets a negative length and throws. |
| WordPiece.EmptyPieceDiverges | Assets/MiniLM/RunMiniLM.cs:121-132 | With "" in the vocabulary and no non-empty prefix matching, the loop re-matches the empty piece forever. |
| WordPiece.EmptyContinuationDiverges | Assets/MiniLM/RunMiniLM.cs:121-132 | With "##" in the vocabulary and no non-empty continuation, the loop re-matches "##" forever. |
| WordPiece.PieceTexts | Assets/MiniLM/RunMiniLM.cs:124 | The text of each piece is the plain prefix for the first span and "##" plus the substring for later ones. |
| WordPiece.PiecesRestoreWord | Assets/MiniLM/RunMiniLM.cs:119-134 | For a fully matched word every later piece starts with "##", and the pieces with "##" stripped concatenate back to the word. |
| WordPiece.WordIds | Assets/MiniLM/RunMiniLM.cs:124-128 | Each id of a word is the first vocabulary index of its piece's text. |
| WordPiece.TokenizeWords | Assets/MiniLM/RunMiniLM.cs:119-134 | Every id the words contribute is the first index of its vocabulary entry. |
| WordPiece.GetTokens | Assets/MiniLM/RunMiniLM.cs:107-142 | A completed tokenization starts with 101 and ends with 102. Every id between the markers is the first index of its vocabulary entry. |
| WordPiece.WordsInOrder | Assets/MiniLM/RunMiniLM.cs:119-134 | The ids of earlier words precede the ids of later words. A failure in an earlier word is the failure of the whole text. |
| WordPiece.EmptyText | Assets/MiniLM/RunMiniLM.cs:110-137 | Empty input gives [101, 102]. If "" is a vocabulary entry, its index sits between the markers. |
| WordPiece.SingleKnownWord | Assets/MiniLM/RunMiniLM.cs:107-142 | A single word whose lower-cased form is in the vocabulary gives [101, its first index, 102]. |
| TagCatalog.EnglishNames | Assets/Clip/demo_server.py:12 | TAGS lists the English name of every catalogue entry, in file order, repetitions included. |
| TagCatalog.Translations | Assets/Clip/demo_server.py:13 | TAG_MAPPING has a key for exactly the English names of the file. Each key maps to the Japanese name of its last entry. |
| TagCatalog.LoadTagTranslations | Assets/Clip/RunCLIP.cs:321-334 | With no tags.json the table stays empty. Otherwise every English name of the file maps to the Japanese name of its last entry, and no other name has a translation. |
| ClipTags.ShouldShowImage | Assets/Clip/RunCLIP.cs:960-986 | With no selected tag every image is shown. Otherwise an image is shown iff a non-null tag matches by English or Japanese name with score >= threshold. |
| ClipTags.AnyShown | Assets/Clip/RunCLIP.cs:971-983 | The tag loop finds a shown tag iff one exists from the current position on. |
| ClipTags.ThresholdMonotone | Assets/Clip/RunCLIP.cs:977 | Raising the threshold never makes a hidden image visible. |
| ClipTags.ToggleTagFilter | Assets/Clip/RunCLIP.cs:781-792 | The new selection is "" or the tag. It is "" exactly when the tag was already selected (or is itself ""). |
| ClipTags.ToggleTwice | Assets/Clip/RunCLIP.cs:781-792 | Toggling the same tag twice from "" returns to "". In general, toggling twice restores the selection exactly when it was "" or that tag, and clears it otherwise. |
| ClipTags.ApplyClassify | Assets/Clip/RunCLIP.cs:639-658 | A parsed response replaces the list. A parse failure appends ("unknown","不明",0) and a transport failure appends ("error","エラー",0), keeping the old tags in front. Appending to a null list throws. |
| ClipTags.TagNamesOf | Assets/Clip/RunCLIP.cs:690-693 | One image's English names are collected iff its list and all its tags are non-null, and they are exactly the names it carries. |
| ClipTags.AllTags | Assets/Clip/RunCLIP.cs:686-694 | The collected set is exactly the English names over all images. The loop throws iff some list or tag is null. |
| ClipTags.CreateTagFilterButtons | Assets/Clip/RunCLIP.cs:662-767 | Unwired, the old buttons stay. Otherwise the buttons are keyed by exactly the collected tags, and each label is the translation if present, else the raw tag. |
| ClipTags.ButtonsMatchTags | Assets/Clip/RunCLIP.cs:687-742 | A button exists for a tag iff some image carries it. There are no buttons when no image has a tag. |
| ClipExport.GetExtension | Assets/Clip/RunCLIP.cs:372 | The extension is a dotted suffix of at least two characters with no dot or separator after its dot. It is "" exactly when the file name has no such dot. |
| ClipExport.ExtensionOfSuffix | Assets/Clip/RunCLIP.cs:372 | A dotted suffix free of dots and separators is the extension, whatever precedes it. |
| ClipExport.AcceptedByExtension | Assets/Clip/RunCLIP.cs:370-377 | Acceptance of a file depends only on its extension, compared after lower-casing with .jpg, .jpeg and .png. |
| ClipExport.GetFileName | Assets/Clip/RunCLIP.cs:442 | The file name is the suffix after the last directory separator, and it contains no separator. |
| ClipExport.ImageFiles | Assets/Clip/RunCLIP.cs:370-377 | A file is kept iff it is listed and its lower-cased extension is .jpg, .jpeg or .png. |
| ClipExport.ImageFilesInOrder | Assets/Clip/RunCLIP.cs:370-377 | Filtering distributes over concatenation, so the kept files stay in their original order. |
| ClipExport.RowFields | Assets/Clip/RunCLIP.cs:842-855 | A row has ten fields: the file name, then (tag, score, tag_ja) for each of the first three tags, and empty fields for each missing one. |
| ClipExport.CsvRow | Assets/Clip/RunCLIP.cs:842-857 | A row is written iff the list and its first three tags are non-null. It is the ten fields joined by commas. |
| ClipExport.RowSplitsIntoFields | Assets/Clip/RunCLIP.cs:842-857 | When no field holds a comma, a row splits back into exactly its ten fields. |
| ClipExport.CsvRows | Assets/Clip/RunCLIP.cs:840-858 | There is one row per image, in list order. The loop throws iff some image is not writable. |
| ClipExport.SaveToCSV | Assets/Clip/RunCLIP.cs:836-858 | The export succeeds iff every image is writable. |
| ClipExport.CsvReadsBack | Assets/Clip/RunCLIP.cs:836-858 | Without commas or line breaks in cells, the CSV splits into the header, one ten-field record per image in order, and an empty remainder. |
| ClipExport.HeaderSplitsIntoColumns | Assets/Clip/RunCLIP.cs:838 | The header reads back as the ten column names, matching the ten row fields. |
| ClipGallery.ToggleTag | Assets/Clip/RunCLIP.cs:769-796 | Definition of the toggle step: the selection toggles and the cards are filtered, nothing else changes. The properties proved about it are ClipTags.ToggleTwice and ClipGallery.ClearShowsAll. |
| ClipGallery.SetSelectedTag | Assets/Clip/RunCLIP.cs:988-996 | Definition of the step: the tag becomes the selection and the cards are filtered, nothing else changes. |
| ClipGallery.ClearTagFilter | Assets/Clip/RunCLIP.cs:998-1003 | Definition of the step: the selection becomes "" and the cards are filtered, nothing else changes. ClipGallery.ClearShowsAll is the property proved about it. |
| ClipGallery.ThresholdChanged | Assets/Clip/RunCLIP.cs:102-118 | Definition of the step: the slider value becomes the threshold and the cards are filtered, nothing else changes. ClipGallery.RaisingThresholdHides is the property proved about it. |
| ClipGallery.Filter | Assets/Clip/RunCLIP.cs:924-958 | A filter run activates exactly the cards whose image passes ShouldShowImage under the current selection and threshold, and changes nothing else. |
| ClipGallery.ClearShowsAll | Assets/Clip/RunCLIP.cs:998-1003 | After clearing the filter, or toggling a tag twice from no selection, every card is active. |
| ClipGallery.RaisingThresholdHides | Assets/Clip/RunCLIP.cs:102-118 | Raising the threshold only deactivates cards: a card active afterwards was shown at the old threshold too. |
| ClipGallery.Loaded | Assets/Clip/RunCLIP.cs:405-450 | The images are exactly one per file that loads, in the order of the files, each named by its file name with an empty tag list. |
| ClipGallery.LoadedExactly | Assets/Clip/RunCLIP.cs:405-450 | Every loaded image comes from a file that loads, and every file that loads gives an image. |
| ClipGallery.PickFolder | Assets/Clip/RunCLIP.cs:336-430 | While busy, or when the panel is cancelled, nothing changes. A folder with no accepted image leaves the gallery as it was. Otherwise the images become the loads of all accepted files, in folder order, each with a new active card, and the gallery becomes busy. |
| ClipGallery.LoadedCardsIgnoreFilter | Assets/Clip/RunCLIP.cs:404-428 | Loading does not filter: with a tag selected, every new card is active although none of the untagged images would pass the filter. |
| ClipGallery.FinishTagging | Assets/Clip/RunCLIP.cs:592-613 | Each image's list becomes the classify result. The busy flag clears iff the button rebuild does not dereference a null; then the buttons are the rebuilt ones. Card activity is not recomputed. |
| ClipGallery.NullListLocksGallery | Assets/Clip/RunCLIP.cs:592-693 | A response with a null top_k leaves the gallery busy, and the folder and export buttons do nothing after that. |
| ClipGallery.TaggingCompletes | Assets/Clip/RunCLIP.cs:592-613 | With non-null responses the pass completes, and the buttons are exactly the tags the images now carry. |
| ClipGallery.ExportCsv | Assets/Clip/RunCLIP.cs:85-93 | Export is skipped exactly while busy. Otherwise it writes the CSV iff every image is writable. |
| ImageCardView.Band | Assets/Clip/ImageCard.cs:122-133 | The colour is green iff score > 0.7, yellow iff 0.5 < score <= 0.7, and gray otherwise. |
| ImageCardView.BandMonotone | Assets/Clip/ImageCard.cs:122-133 | A higher score never gets a lower band. |
| ImageCardView.ChipFor | Assets/Clip/ImageCard.cs:103-133 | Definition of a chip: the Japanese name, one space and the formatted score, coloured by the score's band. ImageCardView.BandMonotone is the property proved about the colour. |
| ImageCardView.Passing | Assets/Clip/ImageCard.cs:62-69 | A tag gets a chip iff it is a non-null tag of the list with score >= threshold. |
| ImageCardView.PassingInOrder | Assets/Clip/ImageCard.cs:62-69 | Chip selection distributes over concatenation, so chips follow list order. |
| ImageCardView.PassingMonotone | Assets/Clip/ImageCard.cs:64 | Raising the threshold never increases the number of chips, and it only removes tags. |
| ImageCardView.DefaultKeepsAll | Assets/Clip/ImageCard.cs:23 | With the default threshold 0, every non-null tag of non-negative score gets a chip. |
| ImageCardView.UpdateTagDisplay | Assets/Clip/ImageCard.cs:23-81 | Nothing happens without image data or a findable container. Otherwise the old chips are cleared. An empty or null list reports nothing. Else the count of passing tags is reported, and chips for them are created in order when the prefab is set. |
| ImageCardView.ShownIffChip | Assets/Clip/ImageCard.cs:64 | For a selected tag, the gallery shows an image exactly when its card makes a chip for a tag of that name. |
| YoloBoxes.RowTimes | Assets/Yolo/YoloCamera.cs:109 | Each entry of a row times a matrix is the dot product of the row with that column. |
| YoloBoxes.ToCorners | Assets/Yolo/YoloCamera.cs:92-109 | (cx, cy, w, h) times centersToCorners is (cx-w/2, cy-h/2, cx+w/2, cy+h/2). |
| YoloBoxes.CornersKeepSizeAndCentre | Assets/Yolo/YoloCamera.cs:92-99 | Corner form keeps the width, the height and the centre. |
| YoloBoxes.CornersOrdered | Assets/Yolo/YoloCamera.cs:92-99 | A box of non-negative size has x1 <= x2 and y1 <= y2. |
| YoloBoxes.CornersRoundTrip | Assets/Yolo/YoloCamera.cs:92-99 | The conversion is invertible: the centre form and the corner form convert into each other losslessly. |
| YoloBoxes.AllCorners | Assets/Yolo/YoloCamera.cs:109 | Definition of the batched product: each box row is converted by ToCorners. YoloBoxes.CornersRoundTrip is the property proved about each row. |
| YoloCamera.StartCamera | Assets/Yolo/YoloCamera.cs:140-159 | An index outside [0, count) changes nothing. Otherwise the camera switches to that device, uninitialised. Without a camera list it throws exactly for a non-negative index, since the negative test comes first. |
| YoloCamera.InitializeCamera | Assets/Yolo/YoloCamera.cs:118-138 | Without permission nothing happens. Otherwise the list is read, and camera 0 is started iff there is a camera. |
| YoloCamera.CameraStarted | Assets/Yolo/YoloCamera.cs:161-200 | The camera becomes initialised once its texture plays; nothing else changes. |
| YoloCamera.OnCameraChanged | Assets/Yolo/YoloCamera.cs:299-306 | The index is taken only if it differs from the current one and is below the count. A negative index is stored but the running camera stays. Without a camera list it throws exactly when the index differs from the current one, since that test comes first. |
| YoloCamera.StartKeepsConsistent | Assets/Yolo/YoloCamera.cs:140-159 | Starting a camera never opens a device outside the list. |
| YoloCamera.ChangeKeepsConsistent | Assets/Yolo/YoloCamera.cs:299-306 | Changing the camera never opens a device outside the list, whatever index is sent. |
| YoloCamera.StartupConsistent | Assets/Yolo/YoloCamera.cs:118-199 | The state after start-up is consistent. |
| YoloCamera.CaptureNeedsInitialized | Assets/Yolo/YoloCamera.cs:214-228 | Capture and inference are no-ops while the camera is not initialised. Capture's guard implies inference's. |
| YoloCamera.DigitsValue | Assets/Yolo/YoloCamera.cs:267 | A zero-padded field reads back as its number. |
| YoloCamera.Timestamp | Assets/Yolo/YoloCamera.cs:267 | The timestamp is 15 characters: 8 digits, '_', 6 digits. |
| YoloCamera.TimestampRoundTrip | Assets/Yolo/YoloCamera.cs:267 | The timestamp parses back to the moment it was made from. |
| YoloCamera.CaptureFileName | Assets/Yolo/YoloCamera.cs:267-269 | The name is the prefix, then a timestamp that parses back to the capture time, then ".png" for PNG and ".jpg" otherwise. |
| YoloCamera.CapturedFileIsImage | Assets/Yolo/YoloCamera.cs:267-269 | A captured file's extension is the format's, whatever the prefix, and the CLIP gallery accepts it. |
| YoloCamera.CaptureImage | Assets/Yolo/YoloCamera.cs:214-221 | A file name is produced iff the camera is initialised and playing. |
| YoloCamera.Labels | Assets/Yolo/YoloCamera.cs:83 | The labels are the class file split at '\n': one more than its line breaks, none containing one. |
| YoloCamera.ExecuteML | Assets/Yolo/YoloCamera.cs:223-257 | Skipped iff not initialised. Otherwise min(boxes, 200) labels are reported in box order, each labels[labelIDs[n]]. It throws iff one of those ids is outside the label list. |
| YoloCamera.ReportFrom | Assets/Yolo/YoloCamera.cs:251-255 | The loop from box n reports each box's label in order, or throws iff a later id is out of range. |
| DemoServer.ScoreInRange | Assets/Clip/demo_server.py:26 | A score drawn by uniform(0.3, 0.9) lies in [0.3, 0.9]. |
| DemoServer.WithScore | Assets/Clip/demo_server.py:34 | The entries of a given score are exactly those of the list with that score. |
| DemoServer.Insert | Assets/Clip/demo_server.py:34 | Inserting into a non-increasing list keeps it non-increasing and adds exactly the one entry. |
| DemoServer.SortByScore | Assets/Clip/demo_server.py:34 | The sort yields a non-increasing permutation of its input. |
| DemoServer.InsertWithScore | Assets/Clip/demo_server.py:34 | An inserted entry comes before the entries of the same score already in the list. |
| DemoServer.SortIsStable | Assets/Clip/demo_server.py:34 | The sort is stable: the entries of any one score keep their relative order. |
| DemoServer.SortKeepsDistinct | Assets/Clip/demo_server.py:34 | Sorting keeps distinct English names distinct. |
| DemoServer.Drawn | Assets/Clip/demo_server.py:23-31 | One entry per sampled position, named from TAGS and TAG_MAPPING, with the score of its draw. |
| DemoServer.Classify | Assets/Clip/demo_server.py:19-35 | ValueError iff top_k < 0 or top_k > len(TAGS). Otherwise exactly top_k entries, non-increasing by score, a permutation of the drawn entries. |
| DemoServer.DrawnEntry | Assets/Clip/demo_server.py:23-31 | A drawn entry names a catalogue tag, carries TAG_MAPPING's Japanese name for it, and scores within [0.3, 0.9]. |
| DemoServer.ClassifyEntries | Assets/Clip/demo_server.py:19-35 | Every response entry names a catalogue tag with its mapped Japanese name and a score in [0.3, 0.9]. |
| DemoServer.ClassifyIsStable | Assets/Clip/demo_server.py:34 | Entries of equal score keep their draw order in the response (Python's sort is stable). |
| DemoServer.ClassifyDistinct | Assets/Clip/demo_server.py:12-23 | With no repeated English name in the catalogue, the response tags are distinct. |
| DemoServer.GalleryRequestSucceeds | Assets/Clip/demo_server.py:17-23 | With at least three catalogue entries, a request for three tags (the default, and what the gallery sends) succeeds with three entries. |

## Left out

- Unity wiring is not modelled: scene and prefab set-up, layout groups, scroll settings, button colours, `Instantiate`/`Destroy` timing, `Debug.Log` and status texts, progress-bar fractions, the alpha lerp of Layout.cs. They have no meaning outside the engine.
- The HTTP coroutines of StableDiffusion.cs, WhisperHF.cs (both copies) and the request half of `ClassifyImage` are not modelled. They are network I/O, and their outcome enters `ClipTags.ApplyClassify` as a `ClassifyOutcome`.
- JPEG/PNG encoding, Base64 data URLs, file reads and writes, and the folder and save panels are not modelled. They are library and I/O calls: folder contents, texture loading (`loads`) and the panel result are parameters.
- The ONNX graphs are not modelled (NMS, ReduceMax/ArgMax, IndexSelect, MiniLM mean pooling and the dot-score model). They run in a closed inference runtime, and the class ids they return are an input of `YoloCamera.ExecuteML`.
- Webcam life cycle, permission prompts, the `Time.deltaTime` timeout and the first-frame wait are not modelled. Their results are the `authorized`, `devices` and `playing` parameters.
- FastAPI routing and request parsing in demo_server.py are not modelled.
- ImageCardView.ChipFor: the "F2" score text is an arbitrary function `format`, not two-decimal formatting.
- ClipExport.RowFields: the "F3" score text is the parameter `format`, not three-decimal formatting.
- YoloBoxes.ToCorners: coordinates are reals, so the single-precision rounding of the tensor product is not modelled.
- DemoServer.ScoreInRange: the bound is proved for real arithmetic. Float rounding of `a + (b-a)*random()` is not modelled.
- Text.Lower: lower-cases only ASCII A-Z. The culture-dependent mapping of `ToLower` for other letters is not modelled.
- ClipTags.ShouldShowImage: the strings inside a tag (`tag`, `tag_ja`) are never null in the model; only the list and its elements can be.
- ClipGallery.PickFolder: takes every card made by a load as active, as the card prefab is instantiated; a prefab saved inactive is not modelled.
- ClipExport.GetFileName: uses the Windows separator set `/` and `\` on every platform. On macOS and Linux `Path.GetFileName` and `Path.GetExtension` split only at `/`, so a name such as `a\b.png` there keeps its backslash; that reading is not modelled.
- ClipGallery.PickFolder: takes the load pass as one step. LoadImagesFromFolder yields after each image, and during those yields the old filter buttons and the slider stay live; a filter run there would deactivate cards made so far while later cards are still made active. That interleaving is not modelled, so the all-active cards of `PickFolder` and `LoadedCardsIgnoreFilter` describe a load during which no filter runs.
- ClipGallery.PickFolder: an exception of `Directory.GetFiles` (a folder removed or unreadable after it was picked) is not modelled. In the source it is raised after `isProcessing` is set, so the gallery would stay locked.
- TagCatalog.LoadTagTranslations: a tags.json of the wrong shape is not modelled. A missing "tags", "en" or "ja" key (KeyNotFoundException) or a null "en" (ArgumentNullException) stops the loop, leaving only the entries before the bad one in the table; the model reads the file as a well-formed list of entries.
- ClipGallery.FinishTagging: takes the whole tagging pass as one step; the interleaving of the coroutine with user input during the pass is not modelled (the busy flag is what the model keeps).
- `UpdateAllImageCards` is not modelled as a gallery step. Each card's update is `ImageCardView.UpdateTagDisplay`; the per-card exception handler of the loop has no effect on the modelled state.
- `OnClickExportCurrent` is not modelled. It only writes a status message.
- `GetCurrentFrame` of YoloCamera is not modelled. It is a texture copy behind the same guard as capture.
