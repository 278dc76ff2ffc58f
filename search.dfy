/** indexer/search.py: the Whoosh index of verb forms for the search box.
    The index is modelled by the documents added to its writer; the
    directory, schema and analyzers are left out. */
module Search {
  import opened Wrappers
  import FirstLetter
  import Index

  /** A document added to the writer. */
  datatype Doc = Doc(verbForm: string, verbFormNoDiacritics: string, filePath: string, indexLetter: Option<string>)

  /** The documents `write_entry` adds when a writer exists, in order. */
  function EntryDocs(verbForm: string, filePath: string, infinitive: string, mode: string, tense: string,
                     title: string, isInfinitive: bool): (docs: seq<Doc>)
    ensures Index.VerbsToIgnoreInAutocomplete(mode, tense) ==> docs == []
    ensures !Index.VerbsToIgnoreInAutocomplete(mode, tense) ==>
              |docs| == (if verbForm == infinitive && infinitive != title then 2 else 1)
    ensures docs != [] ==>
              var letter := if isInfinitive then Some(FirstLetter.FromWord(Some(verbForm))) else None;
              docs[|docs| - 1] == Doc(verbForm, verbForm, filePath, letter) &&
              (|docs| == 2 ==> docs[0] == Doc(title, title, filePath, letter))
    ensures forall k :: 0 <= k < |docs| ==> (docs[k].indexLetter.Some? <==> isInfinitive)
  {
    if Index.VerbsToIgnoreInAutocomplete(mode, tense) then []
    else
      var letter := if isInfinitive then Some(FirstLetter.FromWord(Some(verbForm))) else None;
      var own := Doc(verbForm, verbForm, filePath, letter);
      if verbForm == infinitive && infinitive != title then [Doc(title, title, filePath, letter), own]
      else [own]
  }

  class Search {
    /** Whether `create` made the writer. */
    var writer: bool
    /** The documents added to the writer, in order. */
    var documents: seq<Doc>
    /** The documents the last `save` committed. */
    var committed: seq<Doc>

    /** `__init__`, with no writer yet. */
    constructor()
      ensures !writer && documents == [] && committed == []
    {
      writer, documents, committed := false, [], [];
    }

    /** `create`: a fresh index in a fresh directory, and its writer. */
    method Create()
      modifies this
      ensures writer && documents == [] && committed == old(committed)
    {
      writer := true;
      documents := [];
    }

    /** `write_entry`: without a writer nothing is added. */
    method WriteEntry(verbForm: string, filePath: string, infinitive: string, mode: string, tense: string,
                      title: string, isInfinitive: bool)
      modifies this
      ensures !writer ==> documents == old(documents)
      ensures writer ==>
                documents == old(documents) + EntryDocs(verbForm, filePath, infinitive, mode, tense, title, isInfinitive)
      ensures writer == old(writer) && committed == old(committed)
    {
      if Index.VerbsToIgnoreInAutocomplete(mode, tense) {
        return;
      }
      var indexLetter: Option<string>;
      if isInfinitive {
        indexLetter := Some(FirstLetter.FromWord(Some(verbForm)));
      } else {
        indexLetter := None;
      }
      if verbForm == infinitive && infinitive != title && writer {
        documents := documents + [Doc(title, title, filePath, indexLetter)];
      }
      if writer {
        documents := documents + [Doc(verbForm, verbForm, filePath, indexLetter)];
      }
    }

    /** `save`: commits the writer, and raises `AttributeError` without one. */
    method Save() returns (outcome: Outcome)
      modifies this
      ensures !old(writer) ==> outcome == Fail(AttributeError) && unchanged(this)
      ensures old(writer) ==> outcome == Pass && committed == documents && documents == old(documents)
      ensures writer == old(writer)
    {
      if writer {
        committed := documents;
        outcome := Pass;
      } else {
        outcome := Fail(AttributeError);
      }
    }
  }
}
