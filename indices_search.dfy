/** indexer/indices/search.py: the Elasticsearch index of verb forms for the
    search box. The client is modelled by the operations handed to
    `helpers.bulk`; `_ensure_index`, which `write_entry` never calls, is left
    out. */
module SearchIndex {
  import opened Wrappers
  import FirstLetter
  import BaseIndex

  const IndexName := "search-index"

  /** One queued bulk operation: its target index and its `_source` fields. */
  datatype Op = Op(index: string, verbForm: string, verbFormNoDiacritics: string, filePath: string,
                   indexLetter: Option<string>)

  /** The operations `write_entry` queues, in order. */
  function EntryOps(verbForm: string, filePath: string, infinitive: string, mode: string, tense: string,
                    title: string, isInfinitive: bool): (ops: seq<Op>)
    ensures BaseIndex.VerbsToIgnoreInAutocomplete(mode, tense) ==> ops == []
    ensures !BaseIndex.VerbsToIgnoreInAutocomplete(mode, tense) ==>
              |ops| == (if verbForm == infinitive && infinitive != title then 2 else 1)
    ensures ops != [] ==>
              var letter := if isInfinitive then Some(FirstLetter.FromWord(Some(verbForm))) else None;
              ops[|ops| - 1] == Op(IndexName, verbForm, verbForm, filePath, letter) &&
              (|ops| == 2 ==> ops[0] == Op(IndexName, title, title, filePath, letter))
    ensures forall k :: 0 <= k < |ops| ==> (ops[k].indexLetter.Some? <==> isInfinitive)
  {
    if BaseIndex.VerbsToIgnoreInAutocomplete(mode, tense) then []
    else
      var letter := if isInfinitive then Some(FirstLetter.FromWord(Some(verbForm))) else None;
      var own := Op(IndexName, verbForm, verbForm, filePath, letter);
      if verbForm == infinitive && infinitive != title then [Op(IndexName, title, title, filePath, letter), own]
      else [own]
  }

  class SearchIndex {
    var bulkOps: seq<Op>
    /** Every operation handed to `helpers.bulk` so far. */
    var sent: seq<Op>

    /** `__init__` after the client set-up. */
    constructor()
      ensures bulkOps == [] && sent == []
    {
      bulkOps, sent := [], [];
    }

    /** `write_entry`: queues the entry's operations. */
    method WriteEntry(verbForm: string, filePath: string, infinitive: string, mode: string, tense: string,
                      title: string, isInfinitive: bool)
      modifies this
      ensures bulkOps == old(bulkOps) + EntryOps(verbForm, filePath, infinitive, mode, tense, title, isInfinitive)
      ensures sent == old(sent)
    {
      if BaseIndex.VerbsToIgnoreInAutocomplete(mode, tense) {
        return;
      }
      var indexLetter: Option<string>;
      if isInfinitive {
        indexLetter := Some(FirstLetter.FromWord(Some(verbForm)));
      } else {
        indexLetter := None;
      }
      if verbForm == infinitive && infinitive != title {
        bulkOps := bulkOps + [Op(IndexName, title, title, filePath, indexLetter)];
      }
      bulkOps := bulkOps + [Op(IndexName, verbForm, verbForm, filePath, indexLetter)];
    }

    /** `save`: an empty queue raises; otherwise the queue is sent and emptied. */
    method Save() returns (outcome: Outcome)
      modifies this
      ensures old(bulkOps) == [] ==> outcome == Fail(IndexationError) && unchanged(this)
      ensures old(bulkOps) != [] ==> outcome == Pass && sent == old(sent) + old(bulkOps) && bulkOps == []
    {
      if bulkOps == [] {
        return Fail(IndexationError);
      }
      sent := sent + bulkOps;
      bulkOps := [];
      outcome := Pass;
    }
  }
}
