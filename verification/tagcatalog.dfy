/** A possibly-null reference of the C# and Python sources. */
module Optional {
  datatype Option<+T> = None | Some(value: T)
}

/** The tag catalogue tags.json: a list of {"en", "ja"} pairs. Both the
    demo classification server (TAGS and TAG_MAPPING) and the gallery's
    LoadTagTranslations read it; the translation table is built by
    assigning the entries in file order, so for a repeated English name the
    last entry wins. */
module TagCatalog {
  import opened Optional

  datatype TagEntry = TagEntry(en: string, ja: string)

  /** TAGS: the English names in file order, repetitions kept. */
  function EnglishNames(entries: seq<TagEntry>): (names: seq<string>)
    ensures |names| == |entries|
    ensures forall k :: 0 <= k < |entries| ==> names[k] == entries[k].en
  {
    if |entries| == 0 then [] else [entries[0].en] + EnglishNames(entries[1..])
  }

  /** TAG_MAPPING / tagTranslations: en -> ja, assigned in file order. */
  function Translations(entries: seq<TagEntry>): (m: map<string, string>)
    ensures TranslationsOf(entries, m)
    decreases |entries|
  {
    if |entries| == 0 then map[]
    else
      var init := entries[..|entries| - 1];
      var m0 := Translations(init);
      var last := entries[|entries| - 1];
      TranslationsStep(entries, m0);
      m0[last.en := last.ja]
  }

  /** m holds exactly the English names of the entries, each mapped to the
      Japanese name of its last entry. */
  ghost predicate TranslationsOf(entries: seq<TagEntry>, m: map<string, string>) {
    && (forall k :: 0 <= k < |entries| ==> entries[k].en in m)
    && (forall en :: en in m ==> exists k :: 0 <= k < |entries| && entries[k].en == en)
    && (forall k :: 0 <= k < |entries| && LastWith(entries, k) ==> m[entries[k].en] == entries[k].ja)
  }

  lemma {:induction false} TranslationsStep(entries: seq<TagEntry>, m0: map<string, string>)
    requires |entries| > 0
    requires TranslationsOf(entries[..|entries| - 1], m0)
    ensures TranslationsOf(entries, m0[entries[|entries| - 1].en := entries[|entries| - 1].ja])
  {
    var init := entries[..|entries| - 1];
    var last := entries[|entries| - 1];
    var m := m0[last.en := last.ja];
    forall k | 0 <= k < |entries|
      ensures entries[k].en in m
    {
      if k < |init| {
        assert init[k] == entries[k];
      }
    }
    forall en | en in m
      ensures exists k :: 0 <= k < |entries| && entries[k].en == en
    {
      if en != last.en {
        var k :| 0 <= k < |init| && init[k].en == en;
        assert entries[k] == init[k];
      }
    }
    StepKeepsLast(entries, m0);
  }

  lemma {:induction false} StepKeepsLast(entries: seq<TagEntry>, m0: map<string, string>)
    requires |entries| > 0
    requires TranslationsOf(entries[..|entries| - 1], m0)
    ensures var m := m0[entries[|entries| - 1].en := entries[|entries| - 1].ja];
      forall k :: 0 <= k < |entries| && LastWith(entries, k) ==> m[entries[k].en] == entries[k].ja
  {
    var init := entries[..|entries| - 1];
    var last := entries[|entries| - 1];
    var m := m0[last.en := last.ja];
    forall k | 0 <= k < |entries| && LastWith(entries, k)
      ensures m[entries[k].en] == entries[k].ja
    {
      if k < |init| {
        assert init[k] == entries[k];
        assert LastWith(init, k);
      }
    }
  }

  /** No later entry repeats the English name of entry k. */
  ghost predicate LastWith(entries: seq<TagEntry>, k: int)
    requires 0 <= k < |entries|
  {
    forall j :: k < j < |entries| ==> entries[j].en != entries[k].en
  }

  /** RunCLIP.LoadTagTranslations: the table is empty when tags.json is
      missing, and otherwise holds every English name of the file with the
      Japanese name of its last entry, and no other key: a name outside
      the file has no translation. */
  function LoadTagTranslations(file: Option<seq<TagEntry>>): (m: map<string, string>)
    ensures file.None? ==> m == map[]
    ensures file.Some? ==> forall k :: 0 <= k < |file.value| && LastWith(file.value, k) ==>
      file.value[k].en in m && m[file.value[k].en] == file.value[k].ja
    ensures file.Some? ==> forall en :: en in m ==> exists k :: 0 <= k < |file.value| && file.value[k].en == en
    ensures file.Some? ==> TranslationsOf(file.value, m)
  {
    match file
    case None => map[]
    case Some(entries) => Translations(entries)
  }
}
