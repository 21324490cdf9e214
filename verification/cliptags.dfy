/** The tag data of the CLIP image-tagging gallery (RunCLIP): each loaded
    image carries the list of tags the classification server returned, and
    the gallery shows or hides images by a selected tag and a score
    threshold.

    The list and its elements are references that JSON deserialisation can
    leave null; the source tests for null in some places (the show/hide
    predicate, the chip display) and not in others, where a null
    dereference throws. Scores are single-precision floats in the source
    and reals here, compared with exactly the operators of the source. */
module ClipTags {
  import opened Optional

  datatype TagResult = TagResult(tag: string, tagJa: string, score: real)

  /** List<TagResult>: a possibly-null list of possibly-null tags. */
  type TagList = Option<seq<Option<TagResult>>>

  datatype ImageData = ImageData(fileName: string, tags: TagList)

  /** The tag selects the image's entry when it is its English or its
      Japanese name. */
  predicate Names(t: TagResult, selected: string) {
    t.tag == selected || t.tagJa == selected
  }

  /** The foreach of ShouldShowImage over the tags, from position k on. */
  function AnyShown(tags: seq<Option<TagResult>>, selected: string, threshold: real, k: nat): (b: bool)
    requires k <= |tags|
    ensures b <==> exists j :: (k <= j < |tags| && tags[j].Some?
      && Names(tags[j].value, selected) && tags[j].value.score >= threshold)
    decreases |tags| - k
  {
    if k == |tags| then false
    else if tags[k].Some? && Names(tags[k].value, selected) && tags[k].value.score >= threshold then true
    else AnyShown(tags, selected, threshold, k + 1)
  }

  /** RunCLIP.ShouldShowImage: every image is shown while no tag is
      selected; otherwise an image is shown iff one of its non-null tags
      carries the selected name and reaches the threshold (inclusively). */
  function ShouldShowImage(selected: string, threshold: real, tags: TagList): (show: bool)
    ensures selected == "" ==> show
    ensures selected != "" ==> (show <==> tags.Some? && exists j :: (0 <= j < |tags.value|
      && tags.value[j].Some? && Names(tags.value[j].value, selected) && tags.value[j].value.score >= threshold))
  {
    if selected == "" then true
    else match tags
      case None => false
      case Some(ts) => AnyShown(ts, selected, threshold, 0)
  }

  /** Raising the threshold never makes a hidden image visible. */
  lemma {:induction false} ThresholdMonotone(selected: string, low: real, high: real, tags: TagList)
    requires low <= high
    ensures ShouldShowImage(selected, high, tags) ==> ShouldShowImage(selected, low, tags)
  {
  }

  /** ToggleTagFilter: choosing the selected tag again clears the
      selection; any other tag becomes the selection. */
  function ToggleTagFilter(selected: string, tag: string): (r: string)
    ensures r == "" || r == tag
    ensures r == "" <==> selected == tag || tag == ""
  {
    if selected == tag then "" else tag
  }

  /** Toggling the same tag twice restores the selection when it was empty
      or was that tag, and clears it otherwise. */
  lemma {:induction false} ToggleTwice(selected: string, tag: string)
    ensures ToggleTagFilter(ToggleTagFilter(selected, tag), tag) == (if selected == tag then selected else "")
    ensures ToggleTagFilter(ToggleTagFilter("", tag), tag) == ""
  {
  }

  /** What the POST /classify request of ClassifyImage came back with. */
  datatype ClassifyOutcome =
    | Parsed(topK: TagList)      // the body deserialised; top_k may be null
    | Unparseable                // deserialisation (or reading top_k) threw
    | TransportError             // the request did not succeed

  const UnknownTag: TagResult := TagResult("unknown", "不明", 0.0)
  const ErrorTag: TagResult := TagResult("error", "エラー", 0.0)

  /** The tag update of ClassifyImage. On success the response list
      replaces the tags; on failure a default tag is appended to them,
      which throws (None here) when the list is null. */
  function ApplyClassify(tags: TagList, outcome: ClassifyOutcome): (r: Option<TagList>)
    ensures outcome.Parsed? ==> r == Some(outcome.topK)
    ensures !outcome.Parsed? ==> (r.Some? <==> tags.Some?)
    ensures !outcome.Parsed? && tags.Some? ==>
      && r.value.Some?
      && |r.value.value| == |tags.value| + 1
      && r.value.value[..|tags.value|] == tags.value
      && r.value.value[|tags.value|] == Some(if outcome.Unparseable? then UnknownTag else ErrorTag)
  {
    match outcome
    case Parsed(list) => Some(list)
    case Unparseable => if tags.None? then None else Some(Some(tags.value + [Some(UnknownTag)]))
    case TransportError => if tags.None? then None else Some(Some(tags.value + [Some(ErrorTag)]))
  }

  /** The English names of a tag list, or None when the list or one of
      its elements is null (the collection loop dereferences both). */
  function TagNamesOf(tags: TagList): (r: Option<set<string>>)
    ensures r.Some? <==> tags.Some? && forall j :: 0 <= j < |tags.value| ==> tags.value[j].Some?
    ensures r.Some? ==> forall t :: t in r.value <==> exists j :: 0 <= j < |tags.value| && tags.value[j].value.tag == t
  {
    match tags
    case None => None
    case Some(ts) => NamesFrom(ts)
  }

  function NamesFrom(ts: seq<Option<TagResult>>): (r: Option<set<string>>)
    ensures r.Some? <==> forall j :: 0 <= j < |ts| ==> ts[j].Some?
    ensures r.Some? ==> forall t :: t in r.value <==> exists j :: 0 <= j < |ts| && ts[j].value.tag == t
  {
    if |ts| == 0 then Some({})
    else match (ts[0], NamesFrom(ts[1..]))
      case (Some(t), Some(rest)) =>
        assert forall j :: 1 <= j < |ts| ==> ts[j] == ts[1..][j - 1];
        Some({t.tag} + rest)
      case (None, _) => None
      case (_, None) =>
        assert forall j :: 0 <= j < |ts| - 1 ==> ts[1..][j] == ts[j + 1];
        None
  }

  /** Every English tag name over all images (the HashSet allTags), or
      None when a null list or tag makes the loop throw. */
  function AllTags(images: seq<ImageData>): (r: Option<set<string>>)
    ensures r.Some? <==> forall i :: 0 <= i < |images| ==> TagNamesOf(images[i].tags).Some?
    ensures r.Some? ==> forall t :: t in r.value <==>
      exists i :: 0 <= i < |images| && t in TagNamesOf(images[i].tags).value
  {
    if |images| == 0 then Some({})
    else match (TagNamesOf(images[0].tags), AllTags(images[1..]))
      case (Some(first), Some(rest)) =>
        assert forall i :: 1 <= i < |images| ==> images[i] == images[1..][i - 1];
        Some(first + rest)
      case (None, _) => None
      case (_, None) =>
        assert forall i :: 0 <= i < |images| - 1 ==> images[1..][i] == images[i + 1];
        None
  }

  /** The label of a filter button: the translation when there is one,
      else the raw tag. */
  function DisplayName(translations: map<string, string>, tag: string): string {
    if tag in translations then translations[tag] else tag
  }

  /** CreateTagFilterButtons, as the map from each button's tag to its
      label. When the container or the button prefab is not wired the
      method returns before touching the old buttons; None is the null
      dereference of the collection loop. */
  function CreateTagFilterButtons(previous: map<string, string>, wired: bool, images: seq<ImageData>,
                                  translations: map<string, string>): (r: Option<map<string, string>>)
    ensures !wired ==> r == Some(previous)
    ensures wired ==> (r.Some? <==> AllTags(images).Some?)
    ensures wired && r.Some? ==> r.value.Keys == AllTags(images).value
    ensures wired && r.Some? ==> forall t :: t in r.value ==>
      r.value[t] == (if t in translations then translations[t] else t)
  {
    if !wired then Some(previous)
    else match AllTags(images)
      case None => None
      case Some(all) => Some(map t | t in all :: DisplayName(translations, t))
  }

  /** A button exists for a tag iff some image carries it, and none exists
      when no image has a tag. */
  lemma {:induction false} ButtonsMatchTags(images: seq<ImageData>, translations: map<string, string>, previous: map<string, string>)
    requires CreateTagFilterButtons(previous, true, images, translations).Some?
    ensures forall t :: t in CreateTagFilterButtons(previous, true, images, translations).value <==>
      exists i, j :: (0 <= i < |images| && images[i].tags.Some? && 0 <= j < |images[i].tags.value|
        && images[i].tags.value[j].Some? && images[i].tags.value[j].value.tag == t)
    ensures (forall i :: 0 <= i < |images| ==> images[i].tags == Some([])) ==>
      CreateTagFilterButtons(previous, true, images, translations).value == map[]
  {
    var buttons := CreateTagFilterButtons(previous, true, images, translations).value;
    forall t
      ensures t in buttons <==> exists i, j :: (0 <= i < |images| && images[i].tags.Some? && 0 <= j < |images[i].tags.value|
        && images[i].tags.value[j].Some? && images[i].tags.value[j].value.tag == t)
    {
      if t in buttons {
        var i :| 0 <= i < |images| && t in TagNamesOf(images[i].tags).value;
        var j :| 0 <= j < |images[i].tags.value| && images[i].tags.value[j].value.tag == t;
      }
    }
  }
}
