/** indexer/indexcreator.py: the walk over the forms of one verb file that
    feeds the three Whoosh indices. A verb file is given as its infinitive
    and its list of form records; reading the JSON, finding the files and
    `process_files` are left out. */
module IndexCreator {
  import opened Strings
  import opened Wrappers
  import Index
  import FirstLetter
  import Search
  import Autocomplete
  import IndexLetter

  const InfinitiveTense := "Infinitiu"
  const NonPersonal := "Formes no personals"
  const Separator: char := '/'

  /** One form record of a verb file: its title, mode and tense, whether it
      is the "definition_credits" record, and the words of its six person
      lists, singular1 to plural3, in order. */
  datatype FormRecord = FormRecord(title: string, mode: string, tense: string, definitionCredits: bool,
                                   persons: seq<seq<string>>)

  /** One call of `_write_entry`, without the file-wide arguments (file
      name, infinitive and title). */
  datatype Write = Write(verbForm: string, mode: string, tense: string, isInfinitive: bool)

  /** A record's title is truthy. */
  predicate HasTitle(forms: seq<FormRecord>) {
    exists k :: 0 <= k < |forms| && forms[k].title != []
  }

  /** The "/"-separated parts of a conjugated word, each stripped. */
  function Parts(word: string): (r: seq<string>)
    ensures |r| == |Split(word, Separator)| && |r| >= 1
    ensures forall k :: 0 <= k < |r| ==> r[k] == Strip(Split(word, Separator)[k])
  {
    var pieces := Split(word, Separator);
    seq(|pieces|, k requires 0 <= k < |pieces| => Strip(pieces[k]))
  }

  /** The verb forms written so far: the `indexed` set. */
  function VerbForms(ws: seq<Write>): set<string> {
    set w | w in ws :: w.verbForm
  }

  /** Whether some write is an infinitive: the `infinitive_found` flag. */
  predicate AnyInfinitive(ws: seq<Write>) {
    exists k :: 0 <= k < |ws| && ws[k].isInfinitive
  }

  /** One write per part, with the mode and tense of `form`. */
  function PartWrites(parts: seq<string>, form: FormRecord): seq<Write> {
    seq(|parts|, k requires 0 <= k < |parts| => Write(parts[k], form.mode, form.tense, form.tense == InfinitiveTense))
  }

  /** The writes for the parts of one word of `form`. */
  function WordWrites(word: string, form: FormRecord): (r: seq<Write>)
    ensures |r| >= 1 && |r| == |Split(word, Separator)|
    ensures forall k :: 0 <= k < |r| ==>
              r[k] == Write(Strip(Split(word, Separator)[k]), form.mode, form.tense, form.tense == InfinitiveTense)
  {
    PartWrites(Parts(word), form)
  }

  /** One conjugated word: skipped when the whole word was already written. */
  function AfterWord(done: seq<Write>, word: string, form: FormRecord): (r: seq<Write>)
    ensures done <= r
    ensures word in VerbForms(done) ==> r == done
  {
    if word in VerbForms(done) then done else done + WordWrites(word, form)
  }

  /** The words of one person list, in order. */
  function AfterWords(done: seq<Write>, words: seq<string>, form: FormRecord): seq<Write> {
    if words == [] then done
    else AfterWord(AfterWords(done, words[..|words| - 1], form), words[|words| - 1], form)
  }

  /** The six person lists of one form, in order. */
  function AfterPersons(done: seq<Write>, persons: seq<seq<string>>, form: FormRecord): seq<Write> {
    if persons == [] then done
    else AfterWords(AfterPersons(done, persons[..|persons| - 1], form), persons[|persons| - 1], form)
  }

  /** One form record: the "definition_credits" record writes nothing. */
  function AfterForm(done: seq<Write>, form: FormRecord): (r: seq<Write>)
    ensures form.definitionCredits ==> r == done
  {
    if form.definitionCredits then done else AfterPersons(done, form.persons, form)
  }

  /** The form records of a file, in order. */
  function AfterForms(done: seq<Write>, forms: seq<FormRecord>): seq<Write> {
    if forms == [] then done
    else AfterForm(AfterForms(done, forms[..|forms| - 1]), forms[|forms| - 1])
  }

  /** The write made for the infinitive itself when no form was an infinitive. */
  function FallbackWrite(infinitive: string): Write {
    Write(infinitive, NonPersonal, InfinitiveTense, true)
  }

  /** Every write `_process_file` makes for a verb file, in order. */
  function FileWrites(infinitive: string, forms: seq<FormRecord>): seq<Write> {
    var ws := AfterForms([], forms);
    if AnyInfinitive(ws) then ws else ws + [FallbackWrite(infinitive)]
  }

  /** A write the autocomplete index refuses with `IndexError`: a tense it
      does not ignore, for a form whose index letter is not 'a' to 'z'. */
  predicate Rejected(w: Write) {
    !Index.VerbsToIgnoreInAutocomplete(w.mode, w.tense) &&
    FirstLetter.FromWord(Some(w.verbForm)) !in FirstLetter.GetLetters()
  }

  predicate NoneRejected(ws: seq<Write>) {
    forall k :: 0 <= k < |ws| ==> !Rejected(ws[k])
  }

  // Each step only extends what was written before it.

  lemma {:induction false} AfterWordsExtends(done: seq<Write>, words: seq<string>, form: FormRecord, i: nat)
    requires i <= |words|
    ensures done <= AfterWords(done, words[..i], form) <= AfterWords(done, words, form)
    decreases |words|
  {
    if words != [] {
      var front := words[..|words| - 1];
      if i == |words| {
        assert words[..i] == words;
        AfterWordsExtends(done, front, form, |front|);
        assert front[..|front|] == front;
      } else {
        assert words[..i] == front[..i];
        AfterWordsExtends(done, front, form, i);
      }
    } else {
      assert words[..i] == [];
    }
  }

  lemma {:induction false} AfterPersonsExtends(done: seq<Write>, persons: seq<seq<string>>, form: FormRecord, i: nat)
    requires i <= |persons|
    ensures done <= AfterPersons(done, persons[..i], form) <= AfterPersons(done, persons, form)
    decreases |persons|
  {
    if persons != [] {
      var front := persons[..|persons| - 1];
      var last := persons[|persons| - 1];
      AfterWordsExtends(AfterPersons(done, front, form), last, form, |last|);
      assert last[..|last|] == last;
      if i == |persons| {
        assert persons[..i] == persons;
        AfterPersonsExtends(done, front, form, |front|);
        assert front[..|front|] == front;
      } else {
        assert persons[..i] == front[..i];
        AfterPersonsExtends(done, front, form, i);
      }
    } else {
      assert persons[..i] == [];
    }
  }

  lemma AfterFormExtends(done: seq<Write>, form: FormRecord)
    ensures done <= AfterForm(done, form)
  {
    if !form.definitionCredits {
      AfterPersonsExtends(done, form.persons, form, 0);
      assert form.persons[..0] == [];
    }
  }

  lemma {:induction false} AfterFormsExtends(done: seq<Write>, forms: seq<FormRecord>, i: nat)
    requires i <= |forms|
    ensures done <= AfterForms(done, forms[..i]) <= AfterForms(done, forms)
    decreases |forms|
  {
    if forms != [] {
      var front := forms[..|forms| - 1];
      AfterFormExtends(AfterForms(done, front), forms[|forms| - 1]);
      if i == |forms| {
        assert forms[..i] == forms;
        AfterFormsExtends(done, front, |front|);
        assert front[..|front|] == front;
      } else {
        assert forms[..i] == front[..i];
        AfterFormsExtends(done, front, i);
      }
    } else {
      assert forms[..i] == [];
    }
  }

  /** Every verb file gets at least one infinitive entry, and the fallback
      write is made exactly when the forms gave none. */
  lemma FileHasInfinitive(infinitive: string, forms: seq<FormRecord>)
    ensures AnyInfinitive(FileWrites(infinitive, forms))
    ensures FileWrites(infinitive, forms) == AfterForms([], forms) <==> AnyInfinitive(AfterForms([], forms))
  {
    var ws := AfterForms([], forms);
    if !AnyInfinitive(ws) {
      var all := ws + [FallbackWrite(infinitive)];
      assert all[|ws|].isInfinitive;
      assert |all| != |ws|;
    }
  }

  /** The writes of a word are its stripped parts, with the record's mode
      and tense, and they are infinitives exactly when the tense is
      "Infinitiu". */
  lemma WordPartsWritten(done: seq<Write>, word: string, form: FormRecord, k: nat)
    requires word !in VerbForms(done) && k < |Split(word, Separator)|
    ensures AfterWord(done, word, form)[|done| + k] ==
              Write(Strip(Split(word, Separator)[k]), form.mode, form.tense, form.tense == InfinitiveTense)
  {
  }

  /** What `write_entry` of the search index does with `w`: its documents
      are added when the writer exists. */
  predicate SearchWritten(before: seq<Search.Doc>, after: seq<Search.Doc>, writer: bool, w: Write,
                          filePath: string, infinitive: string, title: string) {
    after == before + (if writer then Search.EntryDocs(w.verbForm, filePath, infinitive, w.mode, w.tense, title, w.isInfinitive) else [])
  }

  /** What `write_entry` of the letter index does with `w`: an infinitive
      is counted, and its document is added when the writer exists. */
  predicate LetterWritten(entriesBefore: nat, entriesAfter: nat, before: seq<IndexLetter.Doc>,
                          after: seq<IndexLetter.Doc>, writer: bool, w: Write, infinitive: string, title: string) {
    entriesAfter == entriesBefore + (if w.isInfinitive then 1 else 0) &&
    after == before + (if writer then IndexLetter.EntryDocs(w.verbForm, infinitive, title, w.isInfinitive) else [])
  }

  /** What `write_entry` of the autocomplete index does with `w` when it
      does not raise: nothing for an ignored tense; otherwise the letter's
      writer exists afterwards (its index created if it had none), and the
      document is added unless its sorting key was already seen. */
  predicate AutocompleteWritten(before: seq<Autocomplete.Doc>, after: seq<Autocomplete.Doc>,
                                duplicates: set<string>, duplicates': set<string>,
                                writers: set<string>, writers': set<string>,
                                creations: seq<string>, creations': seq<string>,
                                w: Write, infinitive: string, title: string) {
    if Index.VerbsToIgnoreInAutocomplete(w.mode, w.tense) then
      after == before && duplicates' == duplicates && writers' == writers && creations' == creations
    else
      var letter := FirstLetter.FromWord(Some(w.verbForm));
      var key := Autocomplete.SortingKey(w.verbForm, infinitive, w.isInfinitive);
      writers' == writers + {letter} &&
      creations' == (if letter in writers then creations else creations + [letter]) &&
      if key in duplicates then after == before && duplicates' == duplicates
      else after == before + [Autocomplete.Doc(letter, w.verbForm, title, infinitive, key)] &&
           duplicates' == duplicates + {key}
  }

  class IndexCreator {
    const search: Search.Search
    const autocomplete: Autocomplete.Autocomplete
    const indexletter: IndexLetter.IndexLetter
    /** The `_write_entry` calls that completed, in order. */
    ghost var writes: seq<Write>

    predicate Valid()
      reads this, autocomplete
    {
      autocomplete.Valid()
    }

    /** `__init__`: the three indices, with the search and letter writers
        created. */
    constructor()
      ensures Valid() && fresh(search) && fresh(autocomplete) && fresh(indexletter)
      ensures search.writer && search.documents == [] && indexletter.writer && indexletter.documents == []
      ensures indexletter.entries == 0 && autocomplete.documents == [] && autocomplete.writers == {}
      ensures writes == []
    {
      var s := new Search.Search();
      var a := new Autocomplete.Autocomplete();
      var l := new IndexLetter.IndexLetter();
      search, autocomplete, indexletter := s, a, l;
      writes := [];
      new;
      search.Create();
      indexletter.Create();
    }

    /** `_write_entry`: the entry goes to the search, autocomplete and letter
        indices in that order, and its form joins `indexed`. An `IndexError`
        from the autocomplete index stops it after the search index. */
    method WriteEntry(indexed: set<string>, w: Write, filePath: string, infinitive: string, title: string)
      returns (outcome: Outcome, indexed': set<string>)
      requires Valid()
      modifies this, search, autocomplete, indexletter
      ensures Valid()
      ensures search.writer == old(search.writer) && indexletter.writer == old(indexletter.writer)
      ensures search.committed == old(search.committed) && indexletter.committed == old(indexletter.committed)
      ensures autocomplete.committed == old(autocomplete.committed)
      ensures SearchWritten(old(search.documents), search.documents, search.writer, w, filePath, infinitive, title)
      ensures outcome.Fail? <==> Rejected(w)
      ensures outcome.Fail? ==>
                outcome.error == IndexError && unchanged(autocomplete) && unchanged(indexletter) &&
                writes == old(writes)
      ensures outcome.Pass? ==>
                indexed' == indexed + {w.verbForm} && writes == old(writes) + [w] &&
                AutocompleteWritten(old(autocomplete.documents), autocomplete.documents,
                                    old(autocomplete.duplicates), autocomplete.duplicates,
                                    old(autocomplete.writers), autocomplete.writers,
                                    old(autocomplete.creations), autocomplete.creations, w, infinitive, title) &&
                LetterWritten(old(indexletter.entries), indexletter.entries, old(indexletter.documents),
                              indexletter.documents, indexletter.writer, w, infinitive, title)
    {
      search.WriteEntry(w.verbForm, filePath, infinitive, w.mode, w.tense, title, w.isInfinitive);
      outcome := autocomplete.WriteEntry(w.verbForm, filePath, infinitive, w.mode, w.tense, title, w.isInfinitive);
      if outcome.Fail? {
        indexed' := indexed;
        return;
      }
      indexletter.WriteEntry(w.verbForm, infinitive, title, w.isInfinitive);
      indexed' := indexed + {w.verbForm};
      writes := writes + [w];
    }

    /** `_get_title`: the first truthy title, and an exception when there is
        none. */
    method GetTitle(forms: seq<FormRecord>) returns (r: Result<string>)
      ensures r.Ok? ==>
                exists k :: 0 <= k < |forms| && forms[k].title == r.value && r.value != [] &&
                            forall j :: 0 <= j < k ==> forms[j].title == []
      ensures r.Err? ==> r.error == NoTitle && !HasTitle(forms)
    {
      for k := 0 to |forms|
        invariant forall j :: 0 <= j < k ==> forms[j].title == []
      {
        var title := forms[k].title;
        if title != [] {
          return Ok(title);
        }
      }
      return Err(NoTitle);
    }

    /** One conjugated word of `form`: skipped when the whole word is in
        `indexed`, otherwise each stripped part is written. */
    method WriteWord(indexed: set<string>, found: bool, word: string, form: FormRecord, filePath: string,
                     infinitive: string, title: string, ghost base: seq<Write>, ghost done: seq<Write>)
      returns (outcome: Outcome, indexed': set<string>, found': bool, ghost culprit: Write)
      requires Valid() && writes == base + done && indexed == VerbForms(done) && (found <==> AnyInfinitive(done))
      requires NoneRejected(done)
      modifies this, search, autocomplete, indexletter
      ensures Valid() && search.writer == old(search.writer) && indexletter.writer == old(indexletter.writer)
      ensures outcome.Pass? ==>
                writes == base + AfterWord(done, word, form) && indexed' == VerbForms(AfterWord(done, word, form)) &&
                (found' <==> AnyInfinitive(AfterWord(done, word, form))) && NoneRejected(AfterWord(done, word, form))
      ensures outcome.Fail? ==>
                outcome.error == IndexError && culprit in AfterWord(done, word, form) && Rejected(culprit)
    {
      indexed', found', culprit := indexed, found, FallbackWrite(infinitive);
      if word in indexed {
        return Pass, indexed', found', culprit;
      }
      var parts := Parts(word);
      outcome, indexed', found', culprit :=
        WriteParts(indexed, found, parts, form, filePath, infinitive, title, base, done);
    }

    /** The stripped parts of a word, each written in turn. */
    method WriteParts(indexed: set<string>, found: bool, parts: seq<string>, form: FormRecord, filePath: string,
                      infinitive: string, title: string, ghost base: seq<Write>, ghost done: seq<Write>)
      returns (outcome: Outcome, indexed': set<string>, found': bool, ghost culprit: Write)
      requires Valid() && writes == base + done && indexed == VerbForms(done) && (found <==> AnyInfinitive(done))
      requires NoneRejected(done)
      modifies this, search, autocomplete, indexletter
      ensures Valid() && search.writer == old(search.writer) && indexletter.writer == old(indexletter.writer)
      ensures outcome.Pass? ==>
                var after := done + PartWrites(parts, form);
                writes == base + after && indexed' == VerbForms(after) &&
                (found' <==> AnyInfinitive(after)) && NoneRejected(after)
      ensures outcome.Fail? ==>
                outcome.error == IndexError && culprit in PartWrites(parts, form) && Rejected(culprit)
    {
      indexed', found', culprit := indexed, found, FallbackWrite(infinitive);
      ghost var ws := PartWrites(parts, form);
      ghost var sofar := done;
      assert |ws| == |parts|;
      for i := 0 to |parts|
        invariant |ws| == |parts| && sofar == done + ws[..i]
        invariant writes == base + sofar && indexed' == VerbForms(sofar)
        invariant (found' <==> AnyInfinitive(sofar)) && NoneRejected(sofar)
        invariant Valid() && search.writer == old(search.writer) && indexletter.writer == old(indexletter.writer)
      {
        var isInfinitive := form.tense == InfinitiveTense;
        if isInfinitive {
          found' := true;
        }
        var w := Write(parts[i], form.mode, form.tense, isInfinitive);
        assert w == ws[i] && ws[..i + 1] == ws[..i] + [w];
        WrittenOneMore(sofar, w);
        outcome, indexed' := WriteEntry(indexed', w, filePath, infinitive, title);
        if outcome.Fail? {
          culprit := w;
          return;
        }
        sofar := sofar + [w];
      }
      assert ws[..|parts|] == ws;
      outcome := Pass;
    }

    /** The words of one person list of `form`, in order. */
    method WriteWords(indexed: set<string>, found: bool, words: seq<string>, form: FormRecord, filePath: string,
                      infinitive: string, title: string, ghost base: seq<Write>, ghost done: seq<Write>)
      returns (outcome: Outcome, indexed': set<string>, found': bool, ghost culprit: Write)
      requires Valid() && writes == base + done && indexed == VerbForms(done) && (found <==> AnyInfinitive(done))
      requires NoneRejected(done)
      modifies this, search, autocomplete, indexletter
      ensures Valid() && search.writer == old(search.writer) && indexletter.writer == old(indexletter.writer)
      ensures outcome.Pass? ==>
                writes == base + AfterWords(done, words, form) && indexed' == VerbForms(AfterWords(done, words, form)) &&
                (found' <==> AnyInfinitive(AfterWords(done, words, form))) && NoneRejected(AfterWords(done, words, form))
      ensures outcome.Fail? ==>
                outcome.error == IndexError && culprit in AfterWords(done, words, form) && Rejected(culprit)
    {
      indexed', found', culprit := indexed, found, FallbackWrite(infinitive);
      ghost var sofar := done;
      for i := 0 to |words|
        invariant sofar == AfterWords(done, words[..i], form)
        invariant writes == base + sofar && indexed' == VerbForms(sofar)
        invariant (found' <==> AnyInfinitive(sofar)) && NoneRejected(sofar)
        invariant Valid() && search.writer == old(search.writer) && indexletter.writer == old(indexletter.writer)
      {
        assert words[..i + 1][..i] == words[..i];
        outcome, indexed', found', culprit :=
          WriteWord(indexed', found', words[i], form, filePath, infinitive, title, base, sofar);
        sofar := AfterWord(sofar, words[i], form);
        AfterWordsExtends(done, words, form, i + 1);
        if outcome.Fail? {
          return;
        }
      }
      assert words[..|words|] == words;
      outcome := Pass;
    }

    /** The six person lists of `form`, in order. */
    method WritePersons(indexed: set<string>, found: bool, form: FormRecord, filePath: string,
                        infinitive: string, title: string, ghost base: seq<Write>, ghost done: seq<Write>)
      returns (outcome: Outcome, indexed': set<string>, found': bool, ghost culprit: Write)
      requires Valid() && writes == base + done && indexed == VerbForms(done) && (found <==> AnyInfinitive(done))
      requires NoneRejected(done)
      modifies this, search, autocomplete, indexletter
      ensures Valid() && search.writer == old(search.writer) && indexletter.writer == old(indexletter.writer)
      ensures outcome.Pass? ==>
                writes == base + AfterPersons(done, form.persons, form) &&
                indexed' == VerbForms(AfterPersons(done, form.persons, form)) &&
                (found' <==> AnyInfinitive(AfterPersons(done, form.persons, form))) &&
                NoneRejected(AfterPersons(done, form.persons, form))
      ensures outcome.Fail? ==>
                outcome.error == IndexError && culprit in AfterPersons(done, form.persons, form) && Rejected(culprit)
    {
      indexed', found', culprit := indexed, found, FallbackWrite(infinitive);
      var persons := form.persons;
      ghost var sofar := done;
      for i := 0 to |persons|
        invariant sofar == AfterPersons(done, persons[..i], form)
        invariant writes == base + sofar && indexed' == VerbForms(sofar)
        invariant (found' <==> AnyInfinitive(sofar)) && NoneRejected(sofar)
        invariant Valid() && search.writer == old(search.writer) && indexletter.writer == old(indexletter.writer)
      {
        assert persons[..i + 1][..i] == persons[..i];
        assert AfterPersons(done, persons[..i + 1], form) == AfterWords(sofar, persons[i], form);
        outcome, indexed', found', culprit :=
          WriteWords(indexed', found', persons[i], form, filePath, infinitive, title, base, sofar);
        sofar := AfterWords(sofar, persons[i], form);
        AfterPersonsExtends(done, persons, form, i + 1);
        if outcome.Fail? {
          return;
        }
      }
      assert persons[..|persons|] == persons;
      outcome := Pass;
    }

    /** The form records of a file, in order, skipping the
        "definition_credits" record. */
    method WriteForms(forms: seq<FormRecord>, filePath: string, infinitive: string, title: string)
      returns (outcome: Outcome, indexed: set<string>, found: bool, ghost culprit: Write)
      requires Valid()
      modifies this, search, autocomplete, indexletter
      ensures Valid()
      ensures outcome.Pass? ==>
                var after := AfterForms([], forms);
                writes == old(writes) + after && indexed == VerbForms(after) &&
                (found <==> AnyInfinitive(after)) && NoneRejected(after)
      ensures outcome.Fail? ==>
                outcome.error == IndexError && culprit in AfterForms([], forms) && Rejected(culprit)
    {
      ghost var base := writes;
      ghost var sofar: seq<Write> := [];
      indexed, found, culprit := {}, false, FallbackWrite(infinitive);
      for i := 0 to |forms|
        invariant sofar == AfterForms([], forms[..i])
        invariant writes == base + sofar && indexed == VerbForms(sofar)
        invariant (found <==> AnyInfinitive(sofar)) && NoneRejected(sofar)
        invariant Valid()
      {
        assert forms[..i + 1][..i] == forms[..i];
        assert AfterForms([], forms[..i + 1]) == AfterForm(sofar, forms[i]);
        AfterFormsExtends([], forms, i + 1);
        if forms[i].definitionCredits {
          continue;
        }
        outcome, indexed, found, culprit :=
          WritePersons(indexed, found, forms[i], filePath, infinitive, title, base, sofar);
        sofar := AfterPersons(sofar, forms[i].persons, forms[i]);
        if outcome.Fail? {
          return;
        }
      }
      assert forms[..|forms|] == forms;
      outcome := Pass;
    }

    /** `_process_file` for a verb file whose infinitive is `infinitive` and
        whose form records are `forms`: it fails without a title before
        writing anything, fails with `IndexError` exactly when one of its
        writes is refused by the autocomplete index, and otherwise makes
        every write of `FileWrites` and returns how many distinct verb forms
        it wrote. */
    method ProcessFile(filePath: string, infinitive: string, forms: seq<FormRecord>) returns (r: Result<nat>)
      requires Valid()
      modifies this, search, autocomplete, indexletter
      ensures Valid()
      ensures !HasTitle(forms) ==> r == Err(NoTitle) && writes == old(writes)
      ensures HasTitle(forms) ==> (r.Ok? <==> NoneRejected(FileWrites(infinitive, forms)))
      ensures HasTitle(forms) && r.Err? ==> r.error == IndexError
      ensures r.Ok? ==>
                writes == old(writes) + FileWrites(infinitive, forms) &&
                r.value == |VerbForms(FileWrites(infinitive, forms))|
    {
      var titleResult := GetTitle(forms);
      if titleResult.Err? {
        return Err(titleResult.error);
      }
      var title := titleResult.value;
      var outcome, indexed, infinitiveFound, culprit := WriteForms(forms, filePath, infinitive, title);
      if outcome.Fail? {
        RejectedInFile(infinitive, forms, culprit);
        return Err(outcome.error);
      }
      ghost var ws := AfterForms([], forms);
      if !infinitiveFound {
        var w := FallbackWrite(infinitive);
        outcome, indexed := WriteEntry(indexed, w, filePath, infinitive, title);
        if outcome.Fail? {
          assert FileWrites(infinitive, forms)[|ws|] == w;
          return Err(outcome.error);
        }
        WrittenOneMore(ws, w);
      }
      r := Ok(|indexed|);
    }
  }

  /** One more write that passed. */
  lemma WrittenOneMore(ws: seq<Write>, w: Write)
    ensures VerbForms(ws + [w]) == VerbForms(ws) + {w.verbForm}
    ensures AnyInfinitive(ws + [w]) <==> AnyInfinitive(ws) || w.isInfinitive
    ensures NoneRejected(ws) && !Rejected(w) ==> NoneRejected(ws + [w])
  {
    assert (ws + [w])[|ws|] == w;
    assert forall k :: 0 <= k < |ws| ==> (ws + [w])[k] == ws[k];
  }

  /** A refused write met in the form records is a write of the file. */
  lemma RejectedInFile(infinitive: string, forms: seq<FormRecord>, w: Write)
    requires w in AfterForms([], forms) && Rejected(w)
    ensures !NoneRejected(FileWrites(infinitive, forms))
  {
    var ws := AfterForms([], forms);
    var k :| 0 <= k < |ws| && ws[k] == w;
    assert FileWrites(infinitive, forms)[k] == w;
  }
}
