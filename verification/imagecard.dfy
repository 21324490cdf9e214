/** One card of the CLIP gallery (ImageCard): it shows the tags of its
    image as chips, keeping only the tags whose score reaches the
    threshold, labelled with the Japanese name and the score and coloured
    by score band. The Unity objects are reduced to what the chip display
    depends on: whether the tags container can be found, whether the chip
    prefab is set, and the chips the container holds. */
module ImageCardView {
  import opened Optional
  import opened ClipTags

  /** The threshold UpdateTagDisplay uses when called without one. */
  const DefaultThreshold: real := 0.0

  datatype Colour = Green | Yellow | Gray

  /** The colour of a chip: both band bounds are exclusive. */
  function Band(score: real): (c: Colour)
    ensures c == Green <==> score > 0.7
    ensures c == Yellow <==> 0.5 < score <= 0.7
    ensures c == Gray <==> score <= 0.5
  {
    if score > 0.7 then Green else if score > 0.5 then Yellow else Gray
  }

  /** Green ranks above yellow, which ranks above gray. */
  function Rank(c: Colour): nat {
    match c
    case Gray => 0
    case Yellow => 1
    case Green => 2
  }

  /** A higher score never gets a lower band. */
  lemma {:induction false} BandMonotone(low: real, high: real)
    requires low <= high
    ensures Rank(Band(low)) <= Rank(Band(high))
  {
  }

  datatype Chip = Chip(text: string, colour: Colour)

  /** CreateTagChip: the label is the Japanese name, one space and the
      score as formatted by `format` (the "F2" format of the source). */
  function ChipFor(t: TagResult, format: real -> string): (c: Chip)
    ensures |c.text| == |t.tagJa| + 1 + |format(t.score)|
    ensures c.text[..|t.tagJa|] == t.tagJa
    ensures c.text[|t.tagJa|] == ' '
    ensures c.text[|t.tagJa| + 1..] == format(t.score)
    ensures c.colour == Band(t.score)
  {
    Chip(t.tagJa + " " + format(t.score), Band(t.score))
  }

  /** The tags of the chip loop: the non-null tags whose score reaches the
      threshold (inclusively), in list order. */
  function Passing(tags: seq<Option<TagResult>>, threshold: real): (r: seq<TagResult>)
    ensures |r| <= |tags|
    ensures forall i :: 0 <= i < |r| ==> r[i].score >= threshold
    ensures forall t :: t in r <==> Some(t) in tags && t.score >= threshold
  {
    if |tags| == 0 then []
    else
      var rest := Passing(tags[1..], threshold);
      assert forall t :: Some(t) in tags <==> tags[0] == Some(t) || Some(t) in tags[1..];
      if tags[0].Some? && tags[0].value.score >= threshold then [tags[0].value] + rest else rest
  }

  /** Chips follow the list order: the tags of a concatenation pass as the
      tags of each part, one part after the other. */
  lemma {:induction false} PassingInOrder(a: seq<Option<TagResult>>, b: seq<Option<TagResult>>, threshold: real)
    ensures Passing(a + b, threshold) == Passing(a, threshold) + Passing(b, threshold)
    decreases |a|
  {
    if |a| == 0 {
      assert a + b == b;
    } else {
      assert (a + b)[0] == a[0];
      assert (a + b)[1..] == a[1..] + b;
      PassingInOrder(a[1..], b, threshold);
    }
  }

  /** Raising the threshold never increases the number of chips, and the
      tags that pass the higher threshold are among those passing the
      lower one. */
  lemma {:induction false} PassingMonotone(tags: seq<Option<TagResult>>, low: real, high: real)
    requires low <= high
    ensures |Passing(tags, high)| <= |Passing(tags, low)|
    ensures forall t :: t in Passing(tags, high) ==> t in Passing(tags, low)
    decreases |tags|
  {
    if |tags| > 0 {
      PassingMonotone(tags[1..], low, high);
    }
  }

  /** With the default threshold every non-null tag of non-negative score
      passes. */
  lemma {:induction false} DefaultKeepsAll(tags: seq<Option<TagResult>>, t: TagResult)
    requires Some(t) in tags && t.score >= 0.0
    ensures t in Passing(tags, DefaultThreshold)
  {
  }

  /** The card: its image data (null before it is assigned), whether its
      tagsContainer reference is set, and the chips the container holds. */
  datatype Card = Card(data: Option<ImageData>, hasContainer: bool, chips: seq<Chip>)

  /** The card after UpdateTagDisplay and the chip count it reports in its
      log line (None when it returns before the chip loop). */
  datatype Display = Display(card: Card, reported: Option<nat>)

  /** ImageCard.UpdateTagDisplay. `findable` says whether the child search
      for the container succeeds, `prefab` whether tagChipPrefab is set
      (without it CreateTagChip returns without a chip, but the count still
      goes up). */
  function UpdateTagDisplay(card: Card, threshold: real, findable: bool, prefab: bool,
                            format: real -> string): (d: Display)
    // nothing is cleared or created without image data or a container
    ensures card.data.None? || (!card.hasContainer && !findable) ==> d == Display(card, None)
    // otherwise the container is known and the old chips are gone
    ensures card.data.Some? && (card.hasContainer || findable) ==>
      && d.card.data == card.data
      && d.card.hasContainer
      && (var tags := card.data.value.tags;
          if tags.None? || |tags.value| == 0 then d.card.chips == [] && d.reported.None?
          else
            && d.reported == Some(|Passing(tags.value, threshold)|)
            && |d.card.chips| == (if prefab then |Passing(tags.value, threshold)| else 0)
            && forall i :: 0 <= i < |d.card.chips| ==>
                 d.card.chips[i] == ChipFor(Passing(tags.value, threshold)[i], format))
  {
    if card.data.None? || (!card.hasContainer && !findable) then Display(card, None)
    else
      var cleared := Card(card.data, true, []);
      var tags := card.data.value.tags;
      if tags.None? || |tags.value| == 0 then Display(cleared, None)
      else
        var shown := Passing(tags.value, threshold);
        var chips := if prefab then seq(|shown|, i requires 0 <= i < |shown| => ChipFor(shown[i], format)) else [];
        Display(cleared.(chips := chips), Some(|shown|))
  }

  /** The chip display and the gallery filter agree: for a selected tag,
      an image is shown exactly when one of the tags its card makes chips
      for carries that name. */
  lemma {:induction false} ShownIffChip(tags: seq<Option<TagResult>>, selected: string, threshold: real)
    requires selected != ""
    ensures ShouldShowImage(selected, threshold, Some(tags)) <==>
      exists t :: t in Passing(tags, threshold) && Names(t, selected)
  {
    if ShouldShowImage(selected, threshold, Some(tags)) {
      var j :| 0 <= j < |tags| && tags[j].Some? && Names(tags[j].value, selected)
        && tags[j].value.score >= threshold;
      assert Some(tags[j].value) in tags;
    }
    if exists t :: t in Passing(tags, threshold) && Names(t, selected) {
      var t :| t in Passing(tags, threshold) && Names(t, selected);
      var j :| 0 <= j < |tags| && tags[j] == Some(t);
    }
  }
}
