/** indexer/indices/letter.py: the Elasticsearch index of verbs by initial
    letter. The client is modelled by the operations handed to
    `helpers.bulk`; `_ensure_index`, which `write_entry` never calls, is left
    out. */
module LetterIndex {
  import opened Wrappers
  import FirstLetter

  const IndexName := "letter-index"

  /** One queued bulk operation: its target index and its `_source` fields. */
  datatype Op = Op(index: string, verbForm: string, infinitive: string, indexLetter: Option<string>)

  /** The operation `write_entry` queues: only an infinitive gets an index
      letter, and an infinitive spelled like the file's infinitive but not
      like its title is stored under the title. */
  function EntryOp(verbForm: string, infinitive: string, title: string, isInfinitive: bool): (op: Op)
    ensures op.index == IndexName && op.infinitive == infinitive
    ensures op.indexLetter.None? <==> !isInfinitive
    ensures isInfinitive ==> op.indexLetter == Some(FirstLetter.FromWord(Some(verbForm)))
    ensures isInfinitive && verbForm == infinitive && infinitive != title ==> op.verbForm == title
    ensures op.verbForm != verbForm ==> isInfinitive && verbForm == infinitive && infinitive != title
    ensures op.verbForm == verbForm || op.verbForm == title
  {
    var indexLetter := if isInfinitive then Some(FirstLetter.FromWord(Some(verbForm))) else None;
    var form := if indexLetter.Some? && verbForm == infinitive && infinitive != title then title else verbForm;
    Op(IndexName, form, infinitive, indexLetter)
  }

  class LetterIndex {
    var entries: nat
    var bulkOps: seq<Op>
    /** Every operation handed to `helpers.bulk` so far. */
    var sent: seq<Op>

    /** `entries` counts exactly the operations with an index letter, that
        is the infinitives, among all those queued since the index was made. */
    predicate Valid()
      reads this
    {
      entries == CountLettered(sent + bulkOps)
    }

    /** `__init__` after the client set-up. */
    constructor()
      ensures Valid()
      ensures entries == 0 && bulkOps == [] && sent == []
    {
      entries, bulkOps, sent := 0, [], [];
    }

    /** `write_entry`: always queues exactly one operation, and counts the
        entry when it is an infinitive. */
    method WriteEntry(verbForm: string, infinitive: string, title: string, isInfinitive: bool)
      requires Valid()
      modifies this
      ensures Valid()
      ensures bulkOps == old(bulkOps) + [EntryOp(verbForm, infinitive, title, isInfinitive)]
      ensures entries == old(entries) + (if isInfinitive then 1 else 0)
      ensures sent == old(sent)
    {
      var indexLetter: Option<string>;
      if isInfinitive {
        indexLetter := Some(FirstLetter.FromWord(Some(verbForm)));
      } else {
        indexLetter := None;
      }
      var form := verbForm;
      if indexLetter.Some? {
        entries := entries + 1;
        if form == infinitive && infinitive != title {
          form := title;
        }
      }
      var op := Op(IndexName, form, infinitive, indexLetter);
      bulkOps := bulkOps + [op];
      assert sent + bulkOps == (sent + old(bulkOps)) + [op];
      CountLetteredAppend(sent + old(bulkOps), [op]);
    }

    /** `save`: an empty queue raises; otherwise the queue is sent and emptied. */
    method Save() returns (outcome: Outcome)
      requires Valid()
      modifies this
      ensures Valid()
      ensures old(bulkOps) == [] ==> outcome == Fail(IndexationError) && unchanged(this)
      ensures old(bulkOps) != [] ==>
                outcome == Pass && sent == old(sent) + old(bulkOps) && bulkOps == [] && entries == old(entries)
    {
      if bulkOps == [] {
        return Fail(IndexationError);
      }
      sent := sent + bulkOps;
      bulkOps := [];
      assert sent + bulkOps == old(sent + bulkOps);
      outcome := Pass;
    }
  }

  /** The number of operations that carry an index letter. */
  function CountLettered(ops: seq<Op>): nat {
    if ops == [] then 0 else (if ops[0].indexLetter.Some? then 1 else 0) + CountLettered(ops[1..])
  }

  lemma {:induction false} CountLetteredAppend(a: seq<Op>, b: seq<Op>)
    ensures CountLettered(a + b) == CountLettered(a) + CountLettered(b)
    decreases |a|
  {
    if a == [] {
      assert a + b == b;
    } else {
      assert (a + b)[1..] == a[1..] + b;
      CountLetteredAppend(a[1..], b);
    }
  }
}
