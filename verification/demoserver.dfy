/** The demo classification server (demo_server.py): POST /classify
    ignores the image and answers with top_k tags drawn at random from the
    catalogue, each with its Japanese name and a random score, sorted by
    descending score. The random draws are inputs here: the positions
    random.sample picked and the values random.random() returned. */
module DemoServer {
  import opened TagCatalog
  import opened ClipTags

  /** The top_k of a request that does not give one. */
  const DefaultTopK: int := 3

  const ScoreLow: real := 0.3
  const ScoreHigh: real := 0.9

  /** random.uniform(a, b) for the value u of random.random(). */
  function Uniform(a: real, b: real, u: real): real {
    a + (b - a) * u
  }

  /** A score lies in [0.3, 0.9] whatever value in [0, 1) is drawn. */
  lemma {:induction false} ScoreInRange(u: real)
    requires 0.0 <= u < 1.0
    ensures ScoreLow <= Uniform(ScoreLow, ScoreHigh, u) <= ScoreHigh
  {
  }

  /** What random.sample(population, k) may return, as positions: k
      distinct positions of the population. */
  predicate IsSample(picks: seq<nat>, size: nat, k: int) {
    && |picks| == k
    && (forall i :: 0 <= i < |picks| ==> picks[i] < size)
    && (forall i, j :: 0 <= i < j < |picks| ==> picks[i] != picks[j])
  }

  predicate IsUnitDraw(units: seq<real>) {
    forall i :: 0 <= i < |units| ==> 0.0 <= units[i] < 1.0
  }

  // ---- stable sort by descending score ----------------------------------

  predicate NonIncreasing(xs: seq<TagResult>) {
    forall i, j :: 0 <= i < j < |xs| ==> xs[i].score >= xs[j].score
  }

  /** The entries of xs with score s, in order. Keeping these lists equal
      is what makes a sort stable. */
  function WithScore(xs: seq<TagResult>, s: real): (r: seq<TagResult>)
    ensures forall y :: y in r <==> y in xs && y.score == s
  {
    if |xs| == 0 then []
    else (if xs[0].score == s then [xs[0]] else []) + WithScore(xs[1..], s)
  }

  /** Puts x in front of the first entry whose score is not above its own:
      x follows the entries that score higher and precedes the ones that
      score the same or lower. */
  function Insert(x: TagResult, xs: seq<TagResult>): (r: seq<TagResult>)
    requires NonIncreasing(xs)
    ensures NonIncreasing(r)
    ensures multiset(r) == multiset(xs) + multiset{x}
    decreases |xs|
  {
    if |xs| == 0 then [x]
    else if xs[0].score <= x.score then
      ConsNonIncreasing(x, xs);
      assert multiset([x] + xs) == multiset{x} + multiset(xs);
      [x] + xs
    else
      var rest := Insert(x, xs[1..]);
      assert xs == [xs[0]] + xs[1..];
      ScoresBelow(xs, x, rest);
      ConsNonIncreasing(xs[0], rest);
      [xs[0]] + rest
  }

  /** An entry scoring at least as high as every entry of a sorted list can
      go in front of it. */
  lemma {:induction false} ConsNonIncreasing(h: TagResult, t: seq<TagResult>)
    requires NonIncreasing(t)
    requires forall k :: 0 <= k < |t| ==> t[k].score <= h.score
    ensures NonIncreasing([h] + t)
  {
    var r := [h] + t;
    forall i, j | 0 <= i < j < |r|
      ensures r[i].score >= r[j].score
    {
      assert r[j] == t[j - 1];
      if i > 0 {
        assert r[i] == t[i - 1];
      }
    }
  }

  lemma {:induction false} ScoresBelow(xs: seq<TagResult>, x: TagResult, rest: seq<TagResult>)
    requires |xs| > 0 && NonIncreasing(xs) && x.score < xs[0].score
    requires multiset(rest) == multiset(xs[1..]) + multiset{x}
    ensures forall k :: 0 <= k < |rest| ==> rest[k].score <= xs[0].score
  {
    forall k | 0 <= k < |rest|
      ensures rest[k].score <= xs[0].score
    {
      var y := rest[k];
      assert y in multiset(rest);
      if y != x {
        assert y in multiset(xs[1..]);
        var j :| 0 <= j < |xs[1..]| && xs[1..][j] == y;
        assert xs[j + 1] == y;
      }
    }
  }

  /** list.sort(key=score, reverse=True). */
  function SortByScore(xs: seq<TagResult>): (r: seq<TagResult>)
    ensures NonIncreasing(r)
    ensures multiset(r) == multiset(xs)
  {
    if |xs| == 0 then []
    else
      assert xs == [xs[0]] + xs[1..];
      Insert(xs[0], SortByScore(xs[1..]))
  }

  lemma {:induction false} InsertWithScore(x: TagResult, xs: seq<TagResult>, s: real)
    requires NonIncreasing(xs)
    ensures WithScore(Insert(x, xs), s) == (if x.score == s then [x] else []) + WithScore(xs, s)
    decreases |xs|
  {
    if |xs| == 0 {
    } else if xs[0].score <= x.score {
      assert ([x] + xs)[1..] == xs;
    } else {
      InsertWithScore(x, xs[1..], s);
      var rest := Insert(x, xs[1..]);
      var r := [xs[0]] + rest;
      assert Insert(x, xs) == r;
      assert r[1..] == rest;
      var w := WithScore(xs[1..], s);
      var hx: seq<TagResult> := if x.score == s then [x] else [];
      var h: seq<TagResult> := if xs[0].score == s then [xs[0]] else [];
      assert WithScore(r, s) == h + (hx + w);
      assert WithScore(xs, s) == h + w;
      if h == [] {
        assert h + (hx + w) == hx + w;
        assert h + w == w;
      } else {
        assert hx == [];
        assert hx + w == w;
        assert hx + (h + w) == h + w;
      }
    }
  }

  /** The sort is stable: the entries of any one score keep their order. */
  lemma {:induction false} SortIsStable(xs: seq<TagResult>, s: real)
    ensures WithScore(SortByScore(xs), s) == WithScore(xs, s)
    decreases |xs|
  {
    if |xs| > 0 {
      SortIsStable(xs[1..], s);
      InsertWithScore(xs[0], SortByScore(xs[1..]), s);
    }
  }

  predicate DistinctTags(xs: seq<TagResult>) {
    forall i, j :: 0 <= i < j < |xs| ==> xs[i].tag != xs[j].tag
  }

  /** Sorting keeps the English names distinct. */
  lemma {:induction false} SortKeepsDistinct(xs: seq<TagResult>)
    requires DistinctTags(xs)
    ensures DistinctTags(SortByScore(xs))
    decreases |xs|
  {
    if |xs| > 0 {
      var rest := SortByScore(xs[1..]);
      SortKeepsDistinct(xs[1..]);
      forall y | y in rest
        ensures y.tag != xs[0].tag
      {
        assert y in multiset(xs[1..]);
        var j :| 0 <= j < |xs[1..]| && xs[1..][j] == y;
        assert xs[j + 1] == y;
      }
      InsertKeepsDistinct(xs[0], rest);
    }
  }

  lemma {:induction false} InsertKeepsDistinct(x: TagResult, xs: seq<TagResult>)
    requires NonIncreasing(xs) && DistinctTags(xs)
    requires forall y :: y in xs ==> y.tag != x.tag
    ensures DistinctTags(Insert(x, xs))
    decreases |xs|
  {
    if |xs| == 0 {
    } else if xs[0].score <= x.score {
      ConsDistinct(x, xs);
    } else {
      assert DistinctTags(xs[1..]) by {
        forall i, j | 0 <= i < j < |xs[1..]|
          ensures xs[1..][i].tag != xs[1..][j].tag
        {
          assert xs[1..][i] == xs[i + 1] && xs[1..][j] == xs[j + 1];
        }
      }
      InsertKeepsDistinct(x, xs[1..]);
      var rest := Insert(x, xs[1..]);
      forall y | y in rest
        ensures y.tag != xs[0].tag
      {
        InsertedFrom(x, xs[1..], y);
        if y != x {
          var j :| 0 <= j < |xs[1..]| && xs[1..][j] == y;
          assert xs[j + 1] == y;
        }
      }
      ConsDistinct(xs[0], rest);
    }
  }

  /** An entry of a distinct list joined in front by a new name. */
  lemma {:induction false} ConsDistinct(y: TagResult, rest: seq<TagResult>)
    requires DistinctTags(rest)
    requires forall z :: z in rest ==> z.tag != y.tag
    ensures DistinctTags([y] + rest)
  {
    var ys := [y] + rest;
    forall i, j | 0 <= i < j < |ys|
      ensures ys[i].tag != ys[j].tag
    {
      assert ys[j] == rest[j - 1];
      if i > 0 {
        assert ys[i] == rest[i - 1];
      }
    }
  }

  /** Every entry of Insert(x, xs) is x or an entry of xs. */
  lemma {:induction false} InsertedFrom(x: TagResult, xs: seq<TagResult>, y: TagResult)
    requires NonIncreasing(xs)
    requires y in Insert(x, xs)
    ensures y == x || y in xs
  {
    assert y in multiset(Insert(x, xs));
  }

  // ---- the endpoint -------------------------------------------------------

  datatype Response = TopK(tags: seq<TagResult>) | ValueError

  /** The out list before sorting: one entry per sampled position, named
      from TAGS and TAG_MAPPING, scored from the matching draw. */
  function Drawn(entries: seq<TagEntry>, picks: seq<nat>, units: seq<real>): (out: seq<TagResult>)
    requires |units| == |picks|
    requires forall i :: 0 <= i < |picks| ==> picks[i] < |entries|
    ensures |out| == |picks|
    ensures forall i :: 0 <= i < |picks| ==> (out[i].tag == EnglishNames(entries)[picks[i]]
      && out[i].tag in Translations(entries) && out[i].tagJa == Translations(entries)[out[i].tag]
      && out[i].score == Uniform(ScoreLow, ScoreHigh, units[i]))
  {
    var names := EnglishNames(entries);
    var table := Translations(entries);
    seq(|picks|, i requires 0 <= i < |picks| =>
      TagResult(names[picks[i]], table[names[picks[i]]], Uniform(ScoreLow, ScoreHigh, units[i])))
  }

  /** classify: random.sample raises ValueError for a negative top_k or one
      larger than the catalogue; otherwise the drawn entries are returned
      sorted. `picks` and `units` are the draws of random.sample and of
      random.uniform. */
  function Classify(entries: seq<TagEntry>, topK: int, picks: seq<nat>, units: seq<real>): (r: Response)
    requires 0 <= topK <= |entries| ==> IsSample(picks, |entries|, topK) && |units| == topK
    ensures r.ValueError? <==> topK < 0 || topK > |entries|
    ensures r.TopK? ==> |r.tags| == topK && NonIncreasing(r.tags)
    ensures r.TopK? ==> multiset(r.tags) == multiset(Drawn(entries, picks, units))
  {
    if topK < 0 || topK > |entries| then ValueError
    else TopK(SortByScore(Drawn(entries, picks, units)))
  }

  /** One drawn entry names a catalogue entry, carries the Japanese name
      TAG_MAPPING gives it and a score in [0.3, 0.9]. */
  lemma {:induction false} DrawnEntry(entries: seq<TagEntry>, picks: seq<nat>, units: seq<real>, i: nat)
    requires |units| == |picks| && IsUnitDraw(units)
    requires forall i :: 0 <= i < |picks| ==> picks[i] < |entries|
    requires i < |picks|
    ensures var t := Drawn(entries, picks, units)[i];
      && (exists k :: 0 <= k < |entries| && entries[k].en == t.tag)
      && t.tag in Translations(entries) && t.tagJa == Translations(entries)[t.tag]
      && ScoreLow <= t.score <= ScoreHigh
  {
    var t := Drawn(entries, picks, units)[i];
    ScoreInRange(units[i]);
    assert entries[picks[i]].en == t.tag;
  }

  /** The response entries: each names a catalogue entry, carries the
      Japanese name the last catalogue entry of that name gives, and a
      score in [0.3, 0.9]. */
  lemma {:induction false} ClassifyEntries(entries: seq<TagEntry>, topK: int, picks: seq<nat>, units: seq<real>)
    requires 0 <= topK <= |entries| && IsSample(picks, |entries|, topK) && |units| == topK
    requires IsUnitDraw(units)
    ensures Classify(entries, topK, picks, units).TopK?
    ensures forall t :: t in Classify(entries, topK, picks, units).tags ==>
      && (exists k :: 0 <= k < |entries| && entries[k].en == t.tag)
      && t.tag in Translations(entries) && t.tagJa == Translations(entries)[t.tag]
      && ScoreLow <= t.score <= ScoreHigh
  {
    var out := Drawn(entries, picks, units);
    var tags := Classify(entries, topK, picks, units).tags;
    forall t | t in tags
      ensures && (exists k :: 0 <= k < |entries| && entries[k].en == t.tag)
              && t.tag in Translations(entries) && t.tagJa == Translations(entries)[t.tag]
              && ScoreLow <= t.score <= ScoreHigh
    {
      var i := SortedFrom(out, t);
      DrawnEntry(entries, picks, units, i);
    }
  }

  /** An entry of the sorted list is at some position of the unsorted one. */
  lemma {:induction false} SortedFrom(xs: seq<TagResult>, t: TagResult) returns (i: nat)
    requires t in SortByScore(xs)
    ensures i < |xs| && xs[i] == t
  {
    assert t in multiset(SortByScore(xs));
    i :| 0 <= i < |xs| && xs[i] == t;
  }

  /** Entries of equal score keep their draw order in the response. */
  lemma {:induction false} ClassifyIsStable(entries: seq<TagEntry>, topK: int, picks: seq<nat>, units: seq<real>, s: real)
    requires 0 <= topK <= |entries| && IsSample(picks, |entries|, topK) && |units| == topK
    ensures Classify(entries, topK, picks, units).TopK?
    ensures WithScore(Classify(entries, topK, picks, units).tags, s) == WithScore(Drawn(entries, picks, units), s)
  {
    SortIsStable(Drawn(entries, picks, units), s);
  }

  /** With a catalogue free of repeated English names, the response names
      top_k different tags. */
  lemma {:induction false} ClassifyDistinct(entries: seq<TagEntry>, topK: int, picks: seq<nat>, units: seq<real>)
    requires 0 <= topK <= |entries| && IsSample(picks, |entries|, topK) && |units| == topK
    requires forall i, j :: 0 <= i < j < |entries| ==> entries[i].en != entries[j].en
    ensures DistinctTags(Classify(entries, topK, picks, units).tags)
  {
    var out := Drawn(entries, picks, units);
    assert DistinctTags(out);
    SortKeepsDistinct(out);
  }

  /** The gallery asks for three tags: with at least three catalogue
      entries its request never fails and fills the three triples of the
      CSV row. */
  lemma {:induction false} GalleryRequestSucceeds(entries: seq<TagEntry>, picks: seq<nat>, units: seq<real>)
    requires |entries| >= 3 && IsSample(picks, |entries|, DefaultTopK) && |units| == DefaultTopK
    ensures Classify(entries, DefaultTopK, picks, units).TopK?
    ensures |Classify(entries, DefaultTopK, picks, units).tags| == 3
  {
  }
}
