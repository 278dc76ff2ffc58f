/** indexer/indices/autocomplete.py: the Elasticsearch autocomplete indices,
    one per initial letter. The Elasticsearch client is modelled by what is
    sent to it: the `create_index` calls, in order, and the operations handed
    to `helpers.bulk`. */
module AutocompleteIndex {
  import opened Wrappers
  import FirstLetter
  import BaseIndex

  const IndexPrefix := "autocomplete-"
  const SortingPrefix := "_"

  /** One queued bulk operation: its target index and its `_source` fields. */
  datatype Op = Op(index: string, verbForm: string, infinitive: string, url: string, sorting: string)

  /** `_get_autocomplete_sorting_key`. */
  function SortingKey(verbForm: string, infinitive: string, isInfinitive: bool): (k: string)
    ensures isInfinitive ==> |k| == |infinitive| + 1 && k[0] == '_' && k[1..] == infinitive
    ensures !isInfinitive ==> |k| == |verbForm| + 1 + |infinitive| && k[..|verbForm|] == verbForm && k[|verbForm|..] == SortingPrefix + infinitive
  {
    if isInfinitive then SortingPrefix + infinitive else verbForm + SortingPrefix + infinitive
  }

  /** Infinitives sort first: the key of an infinitive starts with '_', which
      comes before every lower-case letter a verb form can start with. */
  lemma InfinitivesSortFirst(infinitive: string, verbForm: string, other: string)
    requires verbForm != [] && 'a' <= verbForm[0] <= 'z'
    ensures SortingKey(verbForm, infinitive, true)[0] < SortingKey(verbForm, other, false)[0]
  {
  }

  /** Infinitives with the same key are the same infinitive. */
  lemma InfinitiveKeysInjective(a: string, b: string, v: string, w: string)
    requires SortingKey(v, a, true) == SortingKey(w, b, true)
    ensures a == b
  {
    assert a == SortingKey(v, a, true)[1..];
  }

  class AutocompleteIndex {
    var bulkOps: seq<Op>
    var duplicates: set<string>
    var createdIndices: set<string>
    /** The `create_index` calls issued, in order. */
    var creations: seq<string>
    /** Every operation handed to `helpers.bulk` so far. */
    var sent: seq<Op>

    /** Every sorting key is queued or sent at most once and is recorded in
        `duplicates`; every index is created at most once, and an operation
        only ever targets a created index. */
    predicate Valid()
      reads this
    {
      var all := sent + bulkOps;
      (forall i, j :: 0 <= i < j < |all| ==> all[i].sorting != all[j].sorting) &&
      (forall k :: 0 <= k < |all| ==> all[k].sorting in duplicates && all[k].index in createdIndices) &&
      (forall i, j :: 0 <= i < j < |creations| ==> creations[i] != creations[j]) &&
      createdIndices == set name | name in creations
    }

    /** `__init__` after the client set-up. */
    constructor()
      ensures Valid()
      ensures bulkOps == [] && duplicates == {} && createdIndices == {} && creations == [] && sent == []
    {
      bulkOps, duplicates, createdIndices, creations, sent := [], {}, {}, [], [];
    }

    /** `_ensure_index`: creates the index of `letter` the first time only. */
    method EnsureIndex(letter: string) returns (indexName: string)
      requires Valid()
      modifies this
      ensures Valid()
      ensures indexName == IndexPrefix + letter
      ensures createdIndices == old(createdIndices) + {indexName}
      ensures creations == if indexName in old(createdIndices) then old(creations) else old(creations) + [indexName]
      ensures bulkOps == old(bulkOps) && duplicates == old(duplicates) && sent == old(sent)
    {
      indexName := IndexPrefix + letter;
      if indexName !in createdIndices {
        creations := creations + [indexName];
        createdIndices := createdIndices + {indexName};
      }
    }

    /** `write_entry`. An ignored tense changes nothing; a form whose index
        letter is not 'a' to 'z' raises before any index is created; otherwise
        the letter's index is ensured, and the entry is queued unless its
        sorting key was already seen. */
    method WriteEntry(verbForm: string, infinitive: string, mode: string, tense: string,
                      title: string, isInfinitive: bool) returns (outcome: Outcome)
      requires Valid()
      modifies this
      ensures Valid()
      ensures BaseIndex.VerbsToIgnoreInAutocomplete(mode, tense) ==> outcome == Pass && unchanged(this)
      ensures !BaseIndex.VerbsToIgnoreInAutocomplete(mode, tense) &&
              FirstLetter.FromWord(Some(verbForm)) !in FirstLetter.GetLetters() ==>
                outcome == Fail(IndexationError) && unchanged(this)
      ensures !BaseIndex.VerbsToIgnoreInAutocomplete(mode, tense) &&
              FirstLetter.FromWord(Some(verbForm)) in FirstLetter.GetLetters() ==>
                var name := IndexPrefix + FirstLetter.FromWord(Some(verbForm));
                var key := SortingKey(verbForm, infinitive, isInfinitive);
                outcome == Pass && sent == old(sent) &&
                createdIndices == old(createdIndices) + {name} &&
                creations == (if name in old(createdIndices) then old(creations) else old(creations) + [name]) &&
                (key in old(duplicates) ==> bulkOps == old(bulkOps) && duplicates == old(duplicates)) &&
                (key !in old(duplicates) ==>
                   bulkOps == old(bulkOps) + [Op(name, verbForm, title, infinitive, key)] &&
                   duplicates == old(duplicates) + {key})
    {
      if BaseIndex.VerbsToIgnoreInAutocomplete(mode, tense) {
        return Pass;
      }
      var letter := FirstLetter.FromWord(Some(verbForm));
      if letter !in FirstLetter.GetLetters() {
        return Fail(IndexationError);
      }
      var indexName := EnsureIndex(letter);
      var sortingKey := SortingKey(verbForm, infinitive, isInfinitive);
      if sortingKey in duplicates {
        return Pass;
      }
      duplicates := duplicates + {sortingKey};
      bulkOps := bulkOps + [Op(indexName, verbForm, title, infinitive, sortingKey)];
      assert sent + bulkOps == (sent + old(bulkOps)) + [Op(indexName, verbForm, title, infinitive, sortingKey)];
      outcome := Pass;
    }

    /** `save`: an empty queue raises; otherwise the queue is sent in one bulk
        call and emptied, while the seen sorting keys are kept. */
    method Save() returns (outcome: Outcome)
      requires Valid()
      modifies this
      ensures Valid()
      ensures old(bulkOps) == [] ==> outcome == Fail(IndexationError) && unchanged(this)
      ensures old(bulkOps) != [] ==>
                outcome == Pass && sent == old(sent) + old(bulkOps) && bulkOps == [] &&
                duplicates == old(duplicates) && createdIndices == old(createdIndices) &&
                creations == old(creations)
    {
      if bulkOps == [] {
        return Fail(IndexationError);
      }
      sent := sent + bulkOps;
      bulkOps := [];
      assert sent + bulkOps == old(sent + bulkOps);
      outcome := Pass;
    }
  }
}
