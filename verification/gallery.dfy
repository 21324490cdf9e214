/** The state of the CLIP gallery (RunCLIP) between user actions: the
    loaded images, whether each image's card is active, the busy flag
    isProcessing that locks the folder and export buttons while a folder is
    loaded and tagged, the selected filter tag, the score threshold and the
    filter buttons (tag -> label). The coroutines are taken as whole steps:
    PickFolder is the load of a folder, FinishTagging the tagging pass that
    follows it. */
module ClipGallery {
  import opened Optional
  import opened ClipTags
  import ClipExport

  /** The threshold the component starts with. */
  const InitialThreshold: real := 0.1

  /** `active[i]` is the activeSelf of the card of `images[i]`: the cards
      are made one per loaded image, in the same order. */
  datatype Gallery = Gallery(processing: bool, images: seq<ImageData>, active: seq<bool>,
                             selected: string, threshold: real, buttons: map<string, string>)

  const Initial: Gallery := Gallery(false, [], [], "", InitialThreshold, map[])

  /** One activity flag per card. */
  predicate WellFormed(g: Gallery) {
    |g.active| == |g.images|
  }

  // ---- selection and threshold ----------------------------------------

  /** Whether a filter run shows the image of card i. */
  predicate Shown(g: Gallery, i: int)
    requires 0 <= i < |g.images|
  {
    ShouldShowImage(g.selected, g.threshold, g.images[i].tags)
  }

  /** FilterImagesBySelectedTag: every card is activated or deactivated by
      ShouldShowImage under the current selection and threshold. It is the
      only step that changes a card's activity other than making new
      cards. */
  function Filter(g: Gallery): (r: Gallery)
    ensures WellFormed(r)
    ensures r.(active := g.active) == g
    ensures forall i :: 0 <= i < |g.images| ==> (r.active[i] <==> Shown(g, i))
  {
    g.(active := seq(|g.images|, i requires 0 <= i < |g.images| => Shown(g, i)))
  }

  /** ToggleTagFilter of the filter buttons: the selection toggles, then
      the cards are filtered. */
  function ToggleTag(g: Gallery, tag: string): (r: Gallery)
    ensures r.(selected := g.selected, active := g.active) == g
    ensures r.selected == (if g.selected == tag then "" else tag)
    ensures WellFormed(r) && forall i :: 0 <= i < |r.images| ==> (r.active[i] <==> Shown(r, i))
  {
    Filter(g.(selected := ToggleTagFilter(g.selected, tag)))
  }

  /** SetSelectedTag: the tag becomes the selection, then the cards are
      filtered. */
  function SetSelectedTag(g: Gallery, tag: string): (r: Gallery)
    ensures r.(selected := g.selected, active := g.active) == g
    ensures r.selected == tag
    ensures WellFormed(r) && forall i :: 0 <= i < |r.images| ==> (r.active[i] <==> Shown(r, i))
  {
    Filter(g.(selected := tag))
  }

  /** ClearTagFilter: no tag is selected afterwards, and the cards are
      filtered. */
  function ClearTagFilter(g: Gallery): (r: Gallery)
    ensures r.(selected := g.selected, active := g.active) == g
    ensures r.selected == ""
    ensures WellFormed(r) && forall i :: 0 <= i < |r.images| ==> (r.active[i] <==> Shown(r, i))
  {
    Filter(g.(selected := ""))
  }

  /** OnThresholdChanged: the slider value becomes the threshold, and the
      cards are filtered. */
  function ThresholdChanged(g: Gallery, value: real): (r: Gallery)
    ensures r.(threshold := g.threshold, active := g.active) == g
    ensures r.threshold == value
    ensures WellFormed(r) && forall i :: 0 <= i < |r.images| ==> (r.active[i] <==> Shown(r, i))
  {
    Filter(g.(threshold := value))
  }

  /** Clearing the filter, or toggling a tag twice from no selection,
      activates every card. */
  lemma {:induction false} ClearShowsAll(g: Gallery, tag: string)
    ensures forall i :: 0 <= i < |g.images| ==> ClearTagFilter(g).active[i]
    ensures g.selected == "" ==> forall i :: 0 <= i < |g.images| ==> ToggleTag(ToggleTag(g, tag), tag).active[i]
  {
  }

  /** Raising the threshold only deactivates cards: a card active after
      the change was shown at the old threshold too. */
  lemma {:induction false} RaisingThresholdHides(g: Gallery, value: real, i: nat)
    requires g.threshold <= value && i < |g.images|
    ensures ThresholdChanged(g, value).active[i] ==> Shown(g, i)
  {
    ThresholdMonotone(g.selected, g.threshold, value, g.images[i].tags);
  }

  // ---- loading a folder -----------------------------------------------

  /** The folder panel: cancelled (an empty path) or a folder whose files
      are listed. */
  datatype Folder = Cancelled | Files(paths: seq<string>)

  /** The images LoadImage adds, in order: one per accepted file whose
      texture request succeeds (`loads`), named by its file name and with
      an empty tag list. */
  function Loaded(paths: seq<string>, loads: string -> bool): (r: seq<ImageData>)
    ensures |r| == |ClipExport.Keep(paths, loads)| <= |paths|
    ensures forall k :: 0 <= k < |r| ==>
      r[k] == ImageData(ClipExport.GetFileName(ClipExport.Keep(paths, loads)[k]), Some([]))
  {
    if |paths| == 0 then []
    else
      var first := if loads(paths[0]) then [ImageData(ClipExport.GetFileName(paths[0]), Some([]))] else [];
      var rest := Loaded(paths[1..], loads);
      var keptRest := ClipExport.Keep(paths[1..], loads);
      var keptFirst := if loads(paths[0]) then [paths[0]] else [];
      assert ClipExport.Keep(paths, loads) == keptFirst + keptRest;
      LoadedCons(first, rest, keptFirst, keptRest);
      first + rest
  }

  lemma {:induction false} LoadedCons(first: seq<ImageData>, rest: seq<ImageData>,
                                     keptFirst: seq<string>, keptRest: seq<string>)
    requires |first| == |keptFirst| && |rest| == |keptRest|
    requires forall k :: 0 <= k < |first| ==> first[k] == ImageData(ClipExport.GetFileName(keptFirst[k]), Some([]))
    requires forall k :: 0 <= k < |rest| ==> rest[k] == ImageData(ClipExport.GetFileName(keptRest[k]), Some([]))
    ensures forall k :: 0 <= k < |first + rest| ==>
      (first + rest)[k] == ImageData(ClipExport.GetFileName((keptFirst + keptRest)[k]), Some([]))
  {
    forall k | 0 <= k < |first + rest|
      ensures (first + rest)[k] == ImageData(ClipExport.GetFileName((keptFirst + keptRest)[k]), Some([]))
    {
      if k < |first| {
        assert (first + rest)[k] == first[k] && (keptFirst + keptRest)[k] == keptFirst[k];
      } else {
        assert (first + rest)[k] == rest[k - |first|] && (keptFirst + keptRest)[k] == keptRest[k - |first|];
      }
    }
  }

  /** Every loaded image comes from a file that loads, and every file that
      loads gives an image. */
  lemma {:induction false} LoadedExactly(paths: seq<string>, loads: string -> bool)
    ensures forall img :: img in Loaded(paths, loads) ==> (img.tags == Some([])
      && exists p :: p in paths && loads(p) && img.fileName == ClipExport.GetFileName(p))
    ensures forall p :: p in paths && loads(p) ==> ImageData(ClipExport.GetFileName(p), Some([])) in Loaded(paths, loads)
  {
    var r := Loaded(paths, loads);
    var kept := ClipExport.Keep(paths, loads);
    forall img | img in r
      ensures img.tags == Some([]) && exists p :: p in paths && loads(p) && img.fileName == ClipExport.GetFileName(p)
    {
      var k :| 0 <= k < |r| && r[k] == img;
      assert kept[k] in kept;
    }
    forall p | p in paths && loads(p)
      ensures ImageData(ClipExport.GetFileName(p), Some([])) in r
    {
      assert p in kept;
      var k :| 0 <= k < |kept| && kept[k] == p;
      assert r[k] == ImageData(ClipExport.GetFileName(p), Some([]));
    }
  }

  /** OnClickPickFolder with LoadImagesFromFolder up to the start of the
      tagging pass. While busy, or when the panel is cancelled, nothing
      happens; a folder without accepted images leaves the gallery as it
      was; otherwise the old images are replaced and the gallery is busy. */
  function PickFolder(g: Gallery, folder: Folder, loads: string -> bool): (r: Gallery)
    ensures g.processing || folder.Cancelled? ==> r == g
    ensures folder.Files? && ClipExport.ImageFiles(folder.paths) == [] ==> r == g
    ensures !g.processing && folder.Files? && ClipExport.ImageFiles(folder.paths) != [] ==>
      && r.processing
      && r.(processing := g.processing, images := g.images, active := g.active) == g
      && WellFormed(r) && (forall i :: 0 <= i < |r.active| ==> r.active[i])
      && r.images == Loaded(ClipExport.ImageFiles(folder.paths), loads)
      && (forall p :: p in folder.paths && ClipExport.IsImageFile(p) && loads(p) ==>
            ImageData(ClipExport.GetFileName(p), Some([])) in r.images)
      && forall img :: img in r.images ==> (img.tags == Some([])
           && exists p :: p in folder.paths && ClipExport.IsImageFile(p) && loads(p)
                && img.fileName == ClipExport.GetFileName(p))
  {
    if g.processing || folder.Cancelled? then g
    else
      var valid := ClipExport.ImageFiles(folder.paths);
      if valid == [] then g
      else
        var images := Loaded(valid, loads);
        LoadedExactly(valid, loads);
        g.(processing := true, images := images, active := seq(|images|, _ => true))
  }

  /** The new cards are not filtered: with a tag selected, every card of a
      fresh load is active although no image has a tag yet, so none would
      pass the filter. */
  lemma {:induction false} LoadedCardsIgnoreFilter(g: Gallery, folder: Folder, loads: string -> bool, i: nat)
    requires !g.processing && g.selected != ""
    requires folder.Files? && ClipExport.ImageFiles(folder.paths) != []
    requires i < |PickFolder(g, folder, loads).images|
    ensures var r := PickFolder(g, folder, loads);
      r.active[i] && !Shown(r, i)
  {
    var r := PickFolder(g, folder, loads);
    assert r.images[i] in r.images;
  }

  // ---- the tagging pass -----------------------------------------------

  /** Every image still has the empty tag list LoadImage gave it. */
  predicate Fresh(images: seq<ImageData>) {
    forall i :: 0 <= i < |images| ==> images[i].tags == Some([])
  }

  /** The tag list of a fresh image after its classify request. */
  function TaggedList(outcome: ClassifyOutcome): TagList {
    match outcome
    case Parsed(list) => list
    case Unparseable => Some([Some(UnknownTag)])
    case TransportError => Some([Some(ErrorTag)])
  }

  /** ProcessAllImages: every image is classified in turn, then the filter
      buttons are rebuilt and the busy flag is cleared. When rebuilding the
      buttons dereferences a null tag list or tag, the coroutine stops
      there: the old buttons are already gone and the flag stays set.
      `wired` says whether the button container and prefab are set. The
      pass only runs right after a load, so the gallery is busy and its
      images are fresh. The pass does not filter: every card keeps its
      activity whatever tags it now shows. */
  function FinishTagging(g: Gallery, outcomes: seq<ClassifyOutcome>, wired: bool,
                         translations: map<string, string>): (r: Gallery)
    requires g.processing && |outcomes| == |g.images| && Fresh(g.images)
    ensures |r.images| == |g.images| && r.active == g.active
    ensures forall i :: 0 <= i < |g.images| ==>
      r.images[i] == g.images[i].(tags := ApplyClassify(Some([]), outcomes[i]).value)
    ensures r.selected == g.selected && r.threshold == g.threshold
    ensures r.processing <==> CreateTagFilterButtons(g.buttons, wired, r.images, translations).None?
    ensures !r.processing ==> r.buttons == CreateTagFilterButtons(g.buttons, wired, r.images, translations).value
  {
    var tagged := seq(|g.images|, i requires 0 <= i < |g.images| => g.images[i].(tags := TaggedList(outcomes[i])));
    match CreateTagFilterButtons(g.buttons, wired, tagged, translations)
    case None => g.(images := tagged, buttons := map[])
    case Some(buttons) => g.(images := tagged, buttons := buttons, processing := false)
  }

  /** A response whose list is null (or holds a null tag) leaves the
      gallery busy after the tagging pass, and from then on the folder and
      export buttons do nothing. */
  lemma {:induction false} NullListLocksGallery(g: Gallery, outcomes: seq<ClassifyOutcome>, translations: map<string, string>,
                             i: nat, folder: Folder, loads: string -> bool, format: real -> string)
    requires |outcomes| == |g.images| && Fresh(g.images) && g.processing
    requires i < |outcomes| && outcomes[i] == Parsed(None)
    ensures var r := FinishTagging(g, outcomes, true, translations);
      && r.processing
      && PickFolder(r, folder, loads) == r
      && ExportCsv(r, format) == Busy
  {
    var r := FinishTagging(g, outcomes, true, translations);
    assert r.images[i].tags == None;
    assert TagNamesOf(r.images[i].tags).None?;
  }

  /** With non-null responses (or failed requests) the pass completes, and
      the buttons are those of the tags the images now carry. */
  lemma {:induction false} TaggingCompletes(g: Gallery, outcomes: seq<ClassifyOutcome>, translations: map<string, string>)
    requires g.processing && |outcomes| == |g.images| && Fresh(g.images)
    requires forall i :: 0 <= i < |outcomes| && outcomes[i].Parsed? ==>
      outcomes[i].topK.Some? && forall j :: 0 <= j < |outcomes[i].topK.value| ==> outcomes[i].topK.value[j].Some?
    ensures var r := FinishTagging(g, outcomes, true, translations);
      && !r.processing
      && r.buttons.Keys == AllTags(r.images).value
  {
    var r := FinishTagging(g, outcomes, true, translations);
    forall i | 0 <= i < |r.images|
      ensures TagNamesOf(r.images[i].tags).Some?
    {
      assert r.images[i].tags == TaggedList(outcomes[i]);
    }
  }

  // ---- export ---------------------------------------------------------

  datatype Export = Busy | Csv(text: string) | Throws

  /** OnClickExportCSV: nothing while busy; otherwise the CSV text of the
      loaded images, or a throw on an image the row loop cannot read. */
  function ExportCsv(g: Gallery, format: real -> string): (r: Export)
    ensures g.processing <==> r.Busy?
    ensures !g.processing ==> (r.Csv? <==> forall i :: 0 <= i < |g.images| ==> ClipExport.Writable(g.images[i]))
    ensures r.Csv? ==> Some(r.text) == ClipExport.SaveToCSV(g.images, format)
  {
    if g.processing then Busy
    else match ClipExport.SaveToCSV(g.images, format)
      case Some(text) => Csv(text)
      case None => Throws
  }
}
