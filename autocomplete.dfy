/** indexer/autocomplete.py: the Whoosh autocomplete indices, one per initial
    letter. Each index is modelled by the documents added to its writer; the
    directories, schemas and analyzers are left out. */
module Autocomplete {
  import opened Wrappers
  import FirstLetter
  import Index

  const SortingPrefix := "_"

  /** A document added to the writer of index `letter`. */
  datatype Doc = Doc(letter: string, verbForm: string, infinitive: string, url: string, sorting: string)

  /** `_get_autocomple_sorting_key`. */
  function SortingKey(verbForm: string, infinitive: string, isInfinitive: bool): (k: string)
    ensures isInfinitive ==> |k| == |infinitive| + 1 && k[0] == '_' && k[1..] == infinitive
    ensures !isInfinitive ==>
              |k| == |verbForm| + 1 + |infinitive| && k[..|verbForm|] == verbForm &&
              k[|verbForm|..] == SortingPrefix + infinitive
  {
    if isInfinitive then SortingPrefix + infinitive else verbForm + SortingPrefix + infinitive
  }

  /** A form key never equals an infinitive key whose infinitive is the same
      and whose form is non-empty: the two differ in length. */
  lemma FormKeyNotInfinitiveKey(verbForm: string, infinitive: string)
    requires verbForm != []
    ensures SortingKey(verbForm, infinitive, false) != SortingKey(verbForm, infinitive, true)
  {
  }

  class Autocomplete {
    /** The letters that have a writer, that is the keys of `writers`. */
    var writers: set<string>
    /** The letters whose index `_create` made, in order. */
    var creations: seq<string>
    var duplicates: set<string>
    /** The documents added to the writers, in order; a document's letter
        names its writer. */
    var documents: seq<Doc>
    /** The documents the last `save` committed. */
    var committed: seq<Doc>

    /** Every sorting key is added at most once and is recorded in
        `duplicates`; every document goes to an existing writer; each
        letter's index is created once, when its writer is. */
    predicate Valid()
      reads this
    {
      (forall i, j :: 0 <= i < j < |documents| ==> documents[i].sorting != documents[j].sorting) &&
      (forall k :: 0 <= k < |documents| ==> documents[k].sorting in duplicates && documents[k].letter in writers) &&
      (forall i, j :: 0 <= i < j < |creations| ==> creations[i] != creations[j]) &&
      writers == set letter | letter in creations
    }

    /** `__init__`, with no writer yet. */
    constructor()
      ensures Valid()
      ensures writers == {} && creations == [] && duplicates == {} && documents == [] && committed == []
    {
      writers, creations, duplicates, documents, committed := {}, [], {}, [], [];
    }

    /** `create`, which does nothing. */
    method Create()
      ensures unchanged(this)
    {
    }

    /** `write_entry`. An ignored tense adds nothing; a form whose index
        letter is not 'a' to 'z' raises `IndexError` before any writer is
        made; otherwise the letter's writer is made if it is missing, and the
        document is added unless its sorting key was already seen. */
    method WriteEntry(verbForm: string, filePath: string, infinitive: string, mode: string, tense: string,
                      title: string, isInfinitive: bool) returns (outcome: Outcome)
      requires Valid()
      modifies this
      ensures Valid()
      ensures Index.VerbsToIgnoreInAutocomplete(mode, tense) ==> outcome == Pass && unchanged(this)
      ensures !Index.VerbsToIgnoreInAutocomplete(mode, tense) &&
              FirstLetter.FromWord(Some(verbForm)) !in FirstLetter.GetLetters() ==>
                outcome == Fail(IndexError) && unchanged(this)
      ensures !Index.VerbsToIgnoreInAutocomplete(mode, tense) &&
              FirstLetter.FromWord(Some(verbForm)) in FirstLetter.GetLetters() ==>
                var letter := FirstLetter.FromWord(Some(verbForm));
                var key := SortingKey(verbForm, infinitive, isInfinitive);
                outcome == Pass && committed == old(committed) &&
                writers == old(writers) + {letter} &&
                creations == (if letter in old(writers) then old(creations) else old(creations) + [letter]) &&
                (key in old(duplicates) ==> documents == old(documents) && duplicates == old(duplicates)) &&
                (key !in old(duplicates) ==>
                   documents == old(documents) + [Doc(letter, verbForm, title, infinitive, key)] &&
                   duplicates == old(duplicates) + {key})
    {
      if Index.VerbsToIgnoreInAutocomplete(mode, tense) {
        return Pass;
      }
      var letter := FirstLetter.FromWord(Some(verbForm));
      if letter !in FirstLetter.GetLetters() {
        return Fail(IndexError);
      }
      OpenWriter(letter);
      var sorting := SortingKey(verbForm, infinitive, isInfinitive);
      if sorting in duplicates {
        return Pass;
      }
      AddDocument(Doc(letter, verbForm, title, infinitive, sorting));
      outcome := Pass;
    }

    /** The `if letter not in self.writers` block of `write_entry`: the
        letter's index and writer are made once. */
    method OpenWriter(letter: string)
      requires Valid()
      modifies this
      ensures Valid()
      ensures writers == old(writers) + {letter}
      ensures creations == if letter in old(writers) then old(creations) else old(creations) + [letter]
      ensures duplicates == old(duplicates) && documents == old(documents) && committed == old(committed)
    {
      if letter !in writers {
        creations := creations + [letter];
        writers := writers + {letter};
      }
    }

    /** `add_document` with a sorting key not seen before, which is then recorded. */
    method AddDocument(doc: Doc)
      requires Valid() && doc.letter in writers && doc.sorting !in duplicates
      modifies this
      ensures Valid()
      ensures documents == old(documents) + [doc] && duplicates == old(duplicates) + {doc.sorting}
      ensures writers == old(writers) && creations == old(creations) && committed == old(committed)
    {
      duplicates := duplicates + {doc.sorting};
      documents := documents + [doc];
    }

    /** `save`: every writer commits its documents. */
    method Save()
      requires Valid()
      modifies this
      ensures Valid()
      ensures committed == documents
      ensures writers == old(writers) && creations == old(creations) && duplicates == old(duplicates)
      ensures documents == old(documents)
    {
      committed := documents;
    }
  }
}
