/** The definitions pipeline of definitions/definitions.py: Wiktionary
    pages, given as (title, text) pairs, are filtered down to the Catalan
    verbs of an infinitive list and mapped to their extracted descriptions;
    the infinitives without a definition are then counted. */
module Definitions {
  import opened Strings
  import opened Wrappers
  import TextDescription

  /** The two reflexive pronouns Wiktionary titles end with. */
  const ShortPronoun := "'s"
  const LongPronoun := "-se"

  /** The template that marks a revision text as a Catalan verb entry. */
  const VerbTemplate := "{{ca-verb"

  /** `get_without_reflexive_pronoun`: a trailing "'s" is cut, otherwise a
      trailing "-se"; any other infinitive is kept. */
  function WithoutReflexivePronoun(infinitive: string): (r: string)
    ensures r <= infinitive
    ensures EndsWith(infinitive, ShortPronoun) ==> r + ShortPronoun == infinitive
    ensures !EndsWith(infinitive, ShortPronoun) && EndsWith(infinitive, LongPronoun) ==>
              r + LongPronoun == infinitive
    ensures !EndsWith(infinitive, ShortPronoun) && !EndsWith(infinitive, LongPronoun) ==>
              r == infinitive
  {
    if EndsWith(infinitive, ShortPronoun) then infinitive[..|infinitive| - |ShortPronoun|]
    else if EndsWith(infinitive, LongPronoun) then infinitive[..|infinitive| - |LongPronoun|]
    else infinitive
  }

  /** Only one pronoun is removed: a title ending in both keeps the inner
      one. */
  lemma OneSuffixRemoved(verb: string)
    ensures WithoutReflexivePronoun(verb + LongPronoun + ShortPronoun) == verb + LongPronoun
  {
    var w := verb + LongPronoun + ShortPronoun;
    assert w[|w| - 2..] == ShortPronoun;
    assert w[..|w| - 2] == verb + LongPronoun;
  }

  /** A page of the dump, reduced to its title and its revision text. */
  datatype Page = Page(title: string, text: string)

  /** The verb a page is filed under: its title lower-cased, stripped and
      without reflexive pronoun. */
  function PageVerb(page: Page): string {
    WithoutReflexivePronoun(Strip(Lower(page.title)))
  }

  predicate IsVerbPage(page: Page) {
    Contains(page.text, VerbTemplate)
  }

  /** The entry a page contributes to the definitions, if it passes the
      three filters of `_load_definitions_from_xml`. */
  function PageEntry(page: Page, infinitives: seq<string>): (r: Option<(string, string)>)
    ensures r.Some? <==>
              && PageVerb(page) in infinitives
              && IsVerbPage(page)
              && TextDescription.Description(page.text, Some(infinitives)) != []
    ensures r.Some? ==> r.value.0 in infinitives && r.value.1 != []
  {
    var verb := PageVerb(page);
    if verb !in infinitives || !IsVerbPage(page) then None
    else
      var desc := TextDescription.Description(page.text, Some(infinitives));
      if |desc| == 0 then None else Some((verb, desc))
  }

  /** What one page contributes: a (verb, description) pair, or nothing. */
  type Entry = Option<(string, string)>

  /** The page entries, in page order. */
  function EntriesOf(pages: seq<Page>, infinitives: seq<string>): (es: seq<Entry>)
    ensures |es| == |pages|
    ensures forall k :: 0 <= k < |pages| ==> es[k] == PageEntry(pages[k], infinitives)
  {
    seq(|pages|, k requires 0 <= k < |pages| => PageEntry(pages[k], infinitives))
  }

  /** The dictionary built by storing the entries one after the other, each
      store overwriting any earlier value under the same key. */
  function Stored(entries: seq<Entry>): map<string, string> {
    if entries == [] then map[]
    else
      var earlier := Stored(entries[..|entries| - 1]);
      var e := entries[|entries| - 1];
      if e.None? then earlier else earlier[e.value.0 := e.value.1]
  }

  /** Every stored pair is one of the entries. */
  lemma {:induction false} StoredFromEntries(entries: seq<Entry>)
    ensures forall k | k in Stored(entries) :: exists j :: 0 <= j < |entries| && entries[j] == Some((k, Stored(entries)[k]))
    decreases |entries|
  {
    if entries != [] {
      var front := entries[..|entries| - 1];
      StoredFromEntries(front);
      forall k | k in Stored(entries)
        ensures exists j :: 0 <= j < |entries| && entries[j] == Some((k, Stored(entries)[k]))
      {
        var e := entries[|entries| - 1];
        if !(e.Some? && e.value.0 == k) {
          var j :| 0 <= j < |front| && front[j] == Some((k, Stored(front)[k]));
          assert entries[j] == front[j];
        }
      }
    }
  }

  /** The definitions built from the pages, in page order. */
  function DefinitionsOf(pages: seq<Page>, infinitives: seq<string>): (defs: map<string, string>)
    ensures forall k | k in defs :: k in infinitives && defs[k] != []
  {
    var es := EntriesOf(pages, infinitives);
    var defs := Stored(es);
    StoredFromEntries(es);
    assert forall k | k in defs :: exists j :: 0 <= j < |pages| && es[j] == Some((k, defs[k]));
    defs
  }

  /** The body of the page loop of `_load_definitions_from_xml`: the
      three filters, each discarding the page, then the description. */
  method PageDefinition(page: Page, infinitives: seq<string>) returns (entry: Entry)
    ensures entry == PageEntry(page, infinitives)
  {
    var verb := WithoutReflexivePronoun(Strip(Lower(page.title)));
    if verb !in infinitives {
      return None;
    }
    if !Contains(page.text, VerbTemplate) {
      return None;
    }
    var desc := TextDescription.GetDescription(page.text, Some(infinitives));
    if |desc| == 0 {
      return None;
    }
    return Some((verb, desc));
  }

  /** `_load_definitions_from_xml` over the pages of the dump: each page
      that passes the filters stores its description under its verb. */
  method LoadDefinitions(pages: seq<Page>, infinitives: seq<string>)
    returns (definitions: map<string, string>)
    ensures definitions == DefinitionsOf(pages, infinitives)
  {
    ghost var es := EntriesOf(pages, infinitives);
    definitions := map[];
    var i := 0;
    while i < |pages|
      invariant 0 <= i <= |pages|
      invariant definitions == Stored(es[..i])
    {
      var entry := PageDefinition(pages[i], infinitives);
      StoredStep(es, i);
      i := i + 1;
      if entry.Some? {
        definitions := definitions[entry.value.0 := entry.value.1];
      }
    }
    assert es[..|pages|] == es;
  }

  /** Storing one more entry. */
  lemma StoredStep(entries: seq<Entry>, i: nat)
    requires i < |entries|
    ensures Stored(entries[..i + 1]) ==
              if entries[i].None? then Stored(entries[..i])
              else Stored(entries[..i])[entries[i].value.0 := entries[i].value.1]
  {
    assert entries[..i + 1][..i] == entries[..i];
  }

  predicate StoresKey(e: Entry, k: string) {
    e.Some? && e.value.0 == k
  }

  /** A key is stored exactly when some entry carries it. */
  lemma {:induction false} StoredKeys(entries: seq<Entry>, k: string)
    ensures k in Stored(entries) <==> exists j :: 0 <= j < |entries| && StoresKey(entries[j], k)
    decreases |entries|
  {
    if entries != [] {
      var front := entries[..|entries| - 1];
      StoredKeys(front, k);
      if exists j :: 0 <= j < |entries| && StoresKey(entries[j], k) {
        var j :| 0 <= j < |entries| && StoresKey(entries[j], k);
        if j < |front| {
          assert front[j] == entries[j];
        }
      }
      if exists j :: 0 <= j < |front| && StoresKey(front[j], k) {
        var j :| 0 <= j < |front| && StoresKey(front[j], k);
        assert entries[j] == front[j];
      }
    }
  }

  /** A later entry under the same key overwrites an earlier one: the
      stored value is that of the last entry carrying the key. */
  lemma {:induction false} LastWriteWins(entries: seq<Entry>, j: nat)
    requires j < |entries| && entries[j].Some?
    requires forall l :: j < l < |entries| ==> !StoresKey(entries[l], entries[j].value.0)
    ensures entries[j].value.0 in Stored(entries)
    ensures Stored(entries)[entries[j].value.0] == entries[j].value.1
    decreases |entries|
  {
    if j < |entries| - 1 {
      var front := entries[..|entries| - 1];
      assert front[j] == entries[j];
      forall l | j < l < |front|
        ensures !StoresKey(front[l], front[j].value.0)
      {
        assert front[l] == entries[l];
      }
      LastWriteWins(front, j);
    }
  }

  /** `not_def`: the infinitives without a definition, a repeated entry
      counted each time. */
  function MissingCount(infinitives: seq<string>, definitions: map<string, string>): (n: nat)
    ensures n <= |infinitives|
  {
    if infinitives == [] then 0
    else
      MissingCount(infinitives[..|infinitives| - 1], definitions)
      + (if infinitives[|infinitives| - 1] in definitions then 0 else 1)
  }

  /** The infinitives that have a definition, in list order. */
  function DefinedVerbs(infinitives: seq<string>, definitions: map<string, string>): seq<string> {
    if infinitives == [] then []
    else
      var last := infinitives[|infinitives| - 1];
      DefinedVerbs(infinitives[..|infinitives| - 1], definitions)
      + (if last in definitions then [last] else [])
  }

  /** Every infinitive is either written out or counted as missing. */
  lemma {:induction false} MissingOrWritten(infinitives: seq<string>, definitions: map<string, string>)
    ensures MissingCount(infinitives, definitions) + |DefinedVerbs(infinitives, definitions)| == |infinitives|
    ensures forall v | v in DefinedVerbs(infinitives, definitions) :: v in infinitives && v in definitions
    decreases |infinitives|
  {
    if infinitives != [] {
      var front := infinitives[..|infinitives| - 1];
      MissingOrWritten(front, definitions);
      forall v | v in DefinedVerbs(infinitives, definitions)
        ensures v in infinitives && v in definitions
      {
        if v in DefinedVerbs(front, definitions) {
          var k :| 0 <= k < |front| && front[k] == v;
          assert infinitives[k] == v;
        }
      }
    }
  }

  /** Nothing is counted missing exactly when every infinitive has a
      definition. */
  lemma {:induction false} NoneMissing(infinitives: seq<string>, definitions: map<string, string>)
    ensures MissingCount(infinitives, definitions) == 0 <==> forall k :: 0 <= k < |infinitives| ==> infinitives[k] in definitions
    decreases |infinitives|
  {
    if infinitives != [] {
      var front := infinitives[..|infinitives| - 1];
      NoneMissing(front, definitions);
      if forall k :: 0 <= k < |infinitives| ==> infinitives[k] in definitions {
        forall k | 0 <= k < |front| ensures front[k] in definitions {
          assert front[k] == infinitives[k];
        }
      }
      if forall k :: 0 <= k < |front| ==> front[k] in definitions {
        forall k | 0 <= k < |infinitives| - 1 ensures infinitives[k] in definitions {
          assert front[k] == infinitives[k];
        }
      }
    }
  }

  /** The text of definitions.txt: each defined verb on one line followed
      by its definition on the next. */
  function DefinitionsText(infinitives: seq<string>, definitions: map<string, string>): string {
    if infinitives == [] then []
    else
      var front := DefinitionsText(infinitives[..|infinitives| - 1], definitions);
      var last := infinitives[|infinitives| - 1];
      if last in definitions then front + last + "\n" + definitions[last] + "\n" else front
  }

  /** `_save_definitions`: the text written to definitions.txt and the
      count of infinitives without a definition. */
  method SaveDefinitions(definitions: map<string, string>, infinitives: seq<string>)
    returns (notDef: nat, written: string)
    ensures notDef == MissingCount(infinitives, definitions)
    ensures written == DefinitionsText(infinitives, definitions)
  {
    notDef := 0;
    written := "";
    for i := 0 to |infinitives|
      invariant notDef == MissingCount(infinitives[..i], definitions)
      invariant written == DefinitionsText(infinitives[..i], definitions)
    {
      assert infinitives[..i + 1][..i] == infinitives[..i];
      var verb := infinitives[i];
      if verb !in definitions {
        notDef := notDef + 1;
        continue;
      }
      written := written + verb + "\n" + definitions[verb] + "\n";
    }
    assert infinitives[..|infinitives|] == infinitives;
  }

  /** `_get_infinitives` as written: iterating over the text of the file
      yields its characters, so every entry is one character, lower-cased
      and stripped. */
  function InfinitivesAsWritten(content: string): (r: seq<string>)
    ensures |r| == |content|
  {
    seq(|content|, k requires 0 <= k < |content| => Strip(Lower([content[k]])))
  }

  /** No entry of the character list is longer than one character. */
  lemma AsWrittenEntriesShort(content: string)
    ensures forall w | w in InfinitivesAsWritten(content) :: |w| <= 1
  {
  }

  /** With the character list, no verb of two or more letters can ever be
      stored: a file holding "anar" yields ['a', 'n', 'a', 'r', ''] and the
      page titled "anar" is discarded. */
  lemma AsWrittenStoresNoVerb(pages: seq<Page>, content: string)
    ensures forall k | k in DefinitionsOf(pages, InfinitivesAsWritten(content)) :: |k| <= 1
  {
    AsWrittenEntriesShort(content);
  }

  /** The example above: the verb is lost, and the list holds one entry
      per character of the file. */
  lemma AsWrittenLosesVerb()
    ensures |InfinitivesAsWritten("anar\n")| == 5
    ensures "anar" !in InfinitivesAsWritten("anar\n")
  {
    AsWrittenEntriesShort("anar\n");
  }

  /** The lines of a file as iteration over the open file yields them: a
      final newline does not start another line. */
  function FileLines(content: string): (lines: seq<string>)
    ensures forall k :: 0 <= k < |lines| ==> '\n' !in lines[k]
  {
    if content == [] then []
    else if content[|content| - 1] == '\n' then Split(content[..|content| - 1], '\n')
    else Split(content, '\n')
  }

  /** `_get_infinitives` corrected to read the file line by line. */
  function InfinitivesOf(content: string): (r: seq<string>)
    ensures |r| == |FileLines(content)|
  {
    var lines := FileLines(content);
    seq(|lines|, k requires 0 <= k < |lines| => Strip(Lower(lines[k])))
  }

  /** A file written one infinitive per line gives back each line, lower-cased
      and stripped. */
  lemma InfinitivesPerLine(lines: seq<string>, content: string)
    requires |lines| >= 1
    requires forall k :: 0 <= k < |lines| ==> '\n' !in lines[k]
    requires content == Join(lines, "\n") + "\n"
    ensures |InfinitivesOf(content)| == |lines|
    ensures forall k :: 0 <= k < |lines| ==> InfinitivesOf(content)[k] == Strip(Lower(lines[k]))
  {
    assert content[..|content| - 1] == Join(lines, "\n");
    SplitJoin(lines, '\n');
  }

  /** `generate`: infinitives read line by line, definitions loaded from the
      pages, then saved. */
  method Generate(pages: seq<Page>, infinitivesFile: string)
    returns (definitions: map<string, string>, notDef: nat, written: string)
    ensures definitions == DefinitionsOf(pages, InfinitivesOf(infinitivesFile))
    ensures notDef == MissingCount(InfinitivesOf(infinitivesFile), definitions)
    ensures written == DefinitionsText(InfinitivesOf(infinitivesFile), definitions)
  {
    var infinitives := InfinitivesOf(infinitivesFile);
    definitions := LoadDefinitions(pages, infinitives);
    notDef, written := SaveDefinitions(definitions, infinitives);
  }
}
