/** indexer/indexletter.py: the Whoosh index of infinitives by initial
    letter. The index is modelled by the documents added to its writer; the
    directory, schema and analyzers are left out. */
module IndexLetter {
  import opened Wrappers
  import FirstLetter

  /** A document added to the writer. */
  datatype Doc = Doc(verbForm: string, indexLetter: string, infinitive: string)

  /** The documents `write_entry` adds when a writer exists: one for an
      infinitive, stored under the title when the form is spelled like the
      file's infinitive but not like its title, and none otherwise. */
  function EntryDocs(verbForm: string, infinitive: string, title: string, isInfinitive: bool): (docs: seq<Doc>)
    ensures |docs| == (if isInfinitive then 1 else 0)
    ensures isInfinitive ==>
              docs[0].indexLetter == FirstLetter.FromWord(Some(verbForm)) && docs[0].infinitive == infinitive &&
              (docs[0].verbForm == title <==> verbForm == title || (verbForm == infinitive && infinitive != title)) &&
              (docs[0].verbForm == verbForm || docs[0].verbForm == title)
  {
    if !isInfinitive then []
    else
      var form := if verbForm == infinitive && infinitive != title then title else verbForm;
      [Doc(form, FirstLetter.FromWord(Some(verbForm)), infinitive)]
  }

  class IndexLetter {
    /** Whether `create` made the writer. */
    var writer: bool
    var entries: nat
    /** The documents added to the writer, in order. */
    var documents: seq<Doc>
    /** The documents the last `save` committed. */
    var committed: seq<Doc>

    /** `__init__`, with no writer yet. */
    constructor()
      ensures !writer && entries == 0 && documents == [] && committed == []
    {
      writer, entries, documents, committed := false, 0, [], [];
    }

    /** `create`: a fresh index in a fresh directory, and its writer. */
    method Create()
      modifies this
      ensures writer && documents == [] && entries == old(entries) && committed == old(committed)
    {
      writer := true;
      documents := [];
    }

    /** `write_entry`: an infinitive is counted, and its document is added
        when a writer exists; any other form changes nothing. */
    method WriteEntry(verbForm: string, infinitive: string, title: string, isInfinitive: bool)
      modifies this
      ensures entries == old(entries) + (if isInfinitive then 1 else 0)
      ensures !writer ==> documents == old(documents)
      ensures writer ==> documents == old(documents) + EntryDocs(verbForm, infinitive, title, isInfinitive)
      ensures writer == old(writer) && committed == old(committed)
    {
      var indexLetter: Option<string>;
      if isInfinitive {
        indexLetter := Some(FirstLetter.FromWord(Some(verbForm)));
      } else {
        indexLetter := None;
      }
      if indexLetter.Some? {
        entries := entries + 1;
        var form := verbForm;
        if form == infinitive && infinitive != title {
          form := title;
        }
        if writer {
          documents := documents + [Doc(form, indexLetter.value, infinitive)];
        }
      }
    }

    /** `save`: commits the writer, and raises `AttributeError` without one. */
    method Save() returns (outcome: Outcome)
      modifies this
      ensures !old(writer) ==> outcome == Fail(AttributeError) && unchanged(this)
      ensures old(writer) ==> outcome == Pass && committed == documents && documents == old(documents)
      ensures writer == old(writer) && entries == old(entries)
    {
      if writer {
        committed := documents;
        outcome := Pass;
      } else {
        outcome := Fail(AttributeError);
      }
    }
  }
}
