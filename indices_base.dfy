/** indexer/indices/base.py: the base of the Elasticsearch indices; what is
    modelled is its rule for which compound tenses the indices leave out,
    stated here as a table from mode to compound tense names. The client
    set-up and `create_index` are left out. */
module BaseIndex {
  import opened Strings
  import Index

  /** The tense names that make a tense of `mode` compound. */
  function CompoundTenses(mode: string): seq<string> {
    if mode == "Indicatiu" then
      ["Perfet", "Plusquamperfet", "Passat perifràstic", "Passat anterior",
       "Passat anterior perifràstic", "Futur perfet", "Condicional perfet"]
    else if mode == "Subjuntiu" then ["Perfet", "Plusquamperfet"]
    else if mode == "Formes no personals" then ["Infinitiu compost", "Gerundi compost"]
    else []
  }

  /** `_verbs_to_ignore_in_autocomplete`: the tense contains one of the
      compound tense names of its mode. */
  predicate VerbsToIgnoreInAutocomplete(mode: string, tense: string) {
    exists k :: 0 <= k < |CompoundTenses(mode)| && Contains(tense, CompoundTenses(mode)[k])
  }

  /** The Elasticsearch indices and the Whoosh indices leave out the same
      (mode, tense) pairs. */
  lemma AgreesWithWhoosh(mode: string, tense: string)
    ensures VerbsToIgnoreInAutocomplete(mode, tense) == Index.VerbsToIgnoreInAutocomplete(mode, tense)
  {
    var names := CompoundTenses(mode);
    if mode == "Indicatiu" {
      assert names == Index.IndicatiuCompound;
    } else if mode == "Subjuntiu" {
      assert names == Index.SubjuntiuCompound;
    } else if mode == "Formes no personals" {
      assert names == Index.NonPersonalCompound;
    }
  }

  /** Modes other than the three named ones are never left out. */
  lemma OtherModesIndexed(mode: string, tense: string)
    requires mode != "Indicatiu" && mode != "Subjuntiu" && mode != "Formes no personals"
    ensures !VerbsToIgnoreInAutocomplete(mode, tense)
  {
  }
}
