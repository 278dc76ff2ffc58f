# Catalan verb conjugator: definitions extractor, dictionary editor and indexers

This project is a Dafny model of the core of a Catalan verb conjugator. It has three parts.

- **Definitions extractor** (`definitions/`). The `TextExtract` class turns the "Verb" section of a Wiktionary page into a small HTML fragment:
  - line strippers remove galleries, templates, internal links, bold and italic marks, and XML tags;
  - a two-flag state machine turns `#` and `#:` lines into `<ol><li>` and `<dl><dd>` HTML;
  - a section driver finds the heading, stops at `{{-`, picks up a `forma-a` alternative and keeps the lines that hold text.

  Around it, `Definitions` filters pages and maps each infinitive to its description. The last page written for a key wins.
- **Dictionary editor** (`extractor/`). This part covers:
  - parsing form/lemma/postag lines;
  - lemma exclusion by `list.remove`;
  - Valencian retagging;
  - the rewrite of the auxiliary "anar" lines;
  - the exclusion, diacritic and reflexive-verb lists;
  - the `Form` and `Tense` records.
- **Indexers** (`indexer/`). This part covers:
  - first-letter folding;
  - the compound-tense ignore predicate;
  - the Elasticsearch index builders, whose `bulk_ops` are queued and whose sent operations are kept as a log;
  - the Whoosh index builders, whose writers are document sequences;
  - the per-file traversal of the JSON conjugation records that feeds all three Whoosh indices.

The model keeps each source file's own form:

- **Pure functions** become Dafny functions and lemmas: the strippers, `_html_to_ol`, `_html_to_dl`, `get_reflexiu`, `from_word` and the ignore predicates.
- **Loops** become methods with loop invariants, each proved equal to a specification function:
  - `_remove_templates`, `get_description` and `_load_definitions_from_xml`;
  - `_save_definitions` and `_process_exclusions`;
  - the `DictionaryFile` editors and `_process_file`.
- **Objects updated in place** become classes whose methods state their whole new state: `DictionaryFile`, `Diacritics`, `Reflexius`, the index builders and `IndexCreator`.

All strings are `seq<char>`. Python's `str.strip()` is modelled with its whitespace set. `lower()` maps `A`-`Z` and the Latin-1 capitals `À`-`Þ` (except `×`) to their small letters. `\w` is approximated by ASCII letters and digits, `_`, `ª`, `µ`, `º`, the Latin-1 letters `À`-`ÿ` (except `×` and `÷`) and the Latin Extended-A letters `Ā`-`ſ`. Every regular expression is written as an explicit scanner:

- the `<ref>` and tag regexes (definitions/textextract.py:126-129);
- `forma-a` (183);
- `[a-zA-Z]` (195);
- the Verb heading (213);
- the token regex (extractor/dictionaryfile.py:172).

Some behaviours of the code are easy to misread. The model follows the code in each, except for the first, which is reported under Findings and modelled both as written and corrected:

- **`_remove_templates` is not total.** A `}}` ahead of every `{{` makes `opened` negative and records an `end_pos` before `start_pos` (definitions/textextract.py:110-113). On `a}}b{{c` with brace-free `a` and `b` the recursion then grows the line forever; see Findings. The corrected model returns such a line unchanged, like the loop's own fallbacks at definitions/textextract.py:115-119.
- **A `{{` that is never closed is not always kept.** When it encloses a processed `}}`, the code cuts from that `{{` to after the last processed `}}` (definitions/textextract.py:103-121).
- **Link text.** `_remove_internal_links` keeps the text after the first `|` at or after `[[` (definitions/textextract.py:70-75). That `|` may lie past the `]]`, which gives empty text, although the docstring at definitions/textextract.py:58 gives the format as `[[LINK|TEXT]]`.
- **Empty list items.** `_html_to_ol` has a branch for an item without text (definitions/textextract.py:143-144). It is unreachable: the line is stripped and has at least two characters, so its last character is part of the item text and is not whitespace (`TextLists.OlItemHasText`).
- **`ç` in alternative forms.** The docstring at definitions/textextract.py:180-182 names `[a-z]`, but the pattern at line 183 also admits `à é è í ó ò ú · ç`.
- **Title normalisation order.** A page title is lower-cased and stripped before its reflexive pronoun is removed (definitions/definitions.py:115).

## Model

| member | source | states |
|---|---|---|
| TextMarkup.RemoveGallerySections | definitions/textextract.py:42-55 | the result is never longer than the line, and a line without `<gallery>` is returned unchanged; `GalleryRemovesFirstSpan` and `GalleryUnclosedKept` state the result on every other line |
| TextMarkup.GalleryRemovesFirstSpan | definitions/textextract.py:42-55 | for `pre<gallery>mid</gallery>post`, where this `<gallery>` is the first one and this `</gallery>` the first one after it, the result is exactly `pre + post`, whatever `pre`, `mid` and `post` hold otherwise |
| TextMarkup.GalleryUnclosedKept | definitions/textextract.py:46-52 | a line with `<gallery>` but no `</gallery>` at or after the first `<gallery>` is returned unchanged |
| TextMarkup.OpenCloseDiffer | definitions/textextract.py:106-116 | `{{` and `}}` never start at the same index, so the `else: return line` branch cannot be taken |
| TextMarkup.ScanTemplatesAsWritten | definitions/textextract.py:93-116 | the nesting-counter loop as written computes exactly the positions `ScanAsWritten` defines |
| TextMarkup.ScanTemplates | definitions/textextract.py:93-116 | the corrected loop computes exactly `Scan`: a `}}` met before any `{{` stops the scan with nothing found, and a span found lies inside the line and is at least four characters long |
| TextMarkup.ScanStrayClose | definitions/textextract.py:110-119 | from any state with no `{{` yet recorded, a `}}` that comes first makes the corrected scan report nothing found, so the line is kept |
| TextMarkup.StripTemplatesAsWritten | definitions/textextract.py:90-122 | the recursive method as written equals `RemoveTemplatesAsWritten`, whose `None` stands for exhausting Python's recursion budget |
| TextMarkup.StripTemplates | definitions/textextract.py:90-122 | the corrected method equals `RemoveTemplates`, which terminates on every line and never lengthens it |
| TextMarkup.TemplateStep | definitions/textextract.py:118-122 | every cut removes at least `{{` and `}}`, so each recursive call gets a shorter line |
| TextMarkup.RemoveTemplatesDone | definitions/textextract.py:118-119 | on the result, one more scan finds no complete template to cut |
| TextMarkup.RemoveTemplatesIdempotent | definitions/textextract.py:90-122 | removing templates twice gives the same line as removing them once |
| TextMarkup.TemplatesWithoutOpenKept | definitions/textextract.py:97-119 | a line without `{` is returned unchanged |
| TextMarkup.TemplatesWithoutCloseKept | definitions/textextract.py:103-119 | a line without `}` (a first `{{` never closed) is returned unchanged |
| TextMarkup.TemplateCut | definitions/textextract.py:103-121 | for `pre {{ balanced }} post` with a brace-free `pre`, one pass cuts exactly the outer template with everything nested in it |
| TextMarkup.TemplateSiblings | definitions/textextract.py:121-122 | after a balanced template is cut, the recursion goes on over `pre + post`, so sibling templates are removed too |
| TextMarkup.TextTemplateRemoved | definitions/textextract.py:90-122 | a brace-free template `{{t}}` after brace-free text vanishes, and the recursion continues on the rest, whatever it holds |
| TextMarkup.NestedTemplateRemoved | definitions/test/testtextextract.py:101-106 | following `_remove_templates`, a template holding two nested templates is removed whole, leaving `pre + post` |
| TextMarkup.SiblingTemplatesRemoved | definitions/test/testtextextract.py:108-113 | following `_remove_templates`, `{{a}}link{{b}}` with brace-free parts leaves exactly `link` |
| TextMarkup.AsWrittenAgrees | definitions/textextract.py:93-121 | on lines with no `}}` ahead of their first `{{`, one pass as written and one corrected pass decide the same cut |
| TextMarkup.AsWrittenAgreesOnChain | definitions/textextract.py:90-122 | on a line where no pass of the recursion meets a stray `}}`, the code as written, given a recursion budget of at least the line length, returns the corrected result |
| TextMarkup.TemplatesAsWrittenDiverge | definitions/textextract.py:103-122 | for `a}}b{{c` with brace-free `a`, `b`, the as-written recursion exhausts any recursion budget |
| TextMarkup.DivergeStep | definitions/textextract.py:111-122 | one pass on `a}}b{{c` turns it into the longer `a}}bb{{c` |
| TextMarkup.StrayCloseKept | definitions/textextract.py:90-122 | on every line whose first `}}` comes before its first `{{` (or has no `{{`), the corrected stripper returns the line unchanged, like the fallbacks at lines 115-119 |
| TextMarkup.StrayCloseExample | definitions/textextract.py:90-122 | the corrected stripper returns `x}} {{y}}` unchanged |
| TextInline.LinkText | definitions/textextract.py:70-75 | the kept link text is at least two characters shorter than the stretch from `[[` to `]]` |
| TextInline.LinkStep | definitions/textextract.py:62-77 | each link removal shortens the line by at least four characters, so the recursion ends |
| TextInline.RemoveInternalLinks | definitions/textextract.py:57-80 | the result is no longer than the line, and on it no `]]` follows the first `[[` |
| TextInline.RemoveInternalLinksIdempotent | definitions/textextract.py:57-80 | removing links twice is the same as once |
| TextInline.LinkFreeKept | definitions/textextract.py:62-68 | a line with no `[[` followed by `]]` is returned unchanged |
| TextInline.LinkWithText | definitions/textextract.py:70-77 | `[[L\|T]]` is replaced by `T` |
| TextInline.LinkWithoutText | definitions/textextract.py:72-77 | `[[L]]` with no later `\|` is replaced by `L` |
| TextInline.LinkWithLaterBar | definitions/textextract.py:71-77 | when the first `\|` lies after the `]]`, the link is replaced by empty text |
| TextInline.OneLinkRemoved | definitions/textextract.py:57-80 | a line with one `[[L\|T]]` becomes `pre + T + post` |
| TextInline.NoLinkKept | definitions/textextract.py:62-64 | a line without `[` is unchanged |
| TextInline.RemoveMediawikiMarkup | definitions/textextract.py:82-88 | deleting every `'''` and then every `''` never lengthens the line and leaves no two quotes side by side, so no bold or italic mark survives; `MediawikiMarkupPlainKept` and `BoldRemoved` give its value |
| TextInline.MediawikiMarkupPlainKept | definitions/textextract.py:82-88 | a line without `'` is unchanged |
| TextInline.BoldRemoved | definitions/textextract.py:86 | `pre'''t'''post` with no other quote becomes exactly `pre + t + post` |
| TextInline.RefMatch | definitions/textextract.py:126 | a match of `(<ref>)(.*)(</ref>)` from the search position starts at the leftmost `<ref>` that has a `</ref>` after it on the same line, and ends at the last such `</ref>` (greedy `.*`); none is found exactly when no position from there starts one |
| TextInline.RefToItalic | definitions/textextract.py:126 | rewriting `<ref>` spans never lengthens the line, and a line with no match is unchanged; `RefToItalicFirst` gives the rewritten text |
| TextInline.RefToItalicFirst | definitions/textextract.py:126 | for `pre<ref>x</ref>post` with no earlier `<ref>`, no line break in `x` and no `</ref>` in `post`, the result is exactly `pre {I}x{/I}post` with the italic marks |
| TextInline.StripTags | definitions/textextract.py:127 | deleting `<[^>]*>` never lengthens the line, leaves no complete tag and keeps a line without `<`; `StripOneTag` gives the result on the rest |
| TextInline.StripOneTag | definitions/textextract.py:127 | for `pre<t>post` with no `<` in `pre` and no `>` in `t`, the tag goes and the scan goes on over `post`: the result is `pre + StripTags(post)` |
| TextInline.XmlPlainKept | definitions/textextract.py:124-130 | a line without `<` or `{` is unchanged |
| TextInline.XmlRefToItalic | definitions/test/testtextextract.py:86-92 | following `_remove_xml_tags`, `pre<ref>x</ref>post` becomes `pre <i>x</i>post` |
| TextInline.XmlItalicTagsRemoved | definitions/test/testtextextract.py:78-84 | following `_remove_xml_tags`, `pre<i>x</i>post` with no `<` or `{` in the pieces becomes `pre + x + post` |
| TextInline.RefResultHasNoLess | definitions/textextract.py:126-127 | after the `<ref>` rewrite of a plain line no `<` is left for the tag pass |
| TextInline.RemoveXmlTags | definitions/textextract.py:124-130 | the `<ref>` rewrite, the tag deletion and the two marker replacements together never lengthen the line; `XmlPlainKept`, `XmlRefToItalic` and `XmlItalicTagsRemoved` give its value |
| TextLists.HtmlToOl | definitions/textextract.py:139-157 | the ol flag is set exactly for a `#` item, or for a `#:` line while the list is open. A `#:` line passes unchanged, and an item renders as HTML |
| TextLists.HtmlToDl | definitions/textextract.py:159-177 | the dl flag is set exactly for a `#:` line with text. Any other line gets `</dl>` in front when the list was open |
| TextLists.ConvertToHtml | definitions/textextract.py:132-137 | both flags follow the stripped input line as above |
| TextLists.OlItemHasText | definitions/textextract.py:141-144 | the text of an ordered item is never empty, so the `return "", False` branch is unreachable |
| TextLists.ConvertOlItem | definitions/textextract.py:139-177 | an item gives `[</dl>][<ol>]<li>text</li>`, with `<ol>` only when the list was closed |
| TextLists.ConvertDlItem | definitions/textextract.py:161-173 | `#:text` gives `[<dl>]<dd>text</dd>`, and a bare `#:` gives the empty line |
| TextLists.ConvertOther | definitions/textextract.py:154-177 | any other line is kept, with `</dl>` and `</ol>` in front for the lists that were open |
| TextLists.ConvertLines | definitions/textextract.py:252-254 | threading the flags over the lines gives one output line per input line |
| TextLists.SimpleNumberedList | definitions/test/testtextextract.py:26-47 | heading, two `#` items, empty line give `w`, `<ol><li>a</li>`, `<li>b</li>`, `</ol>` |
| TextLists.NumberedListWithDefinitions | definitions/test/testtextextract.py:49-76 | the mixed list gives `<dl><dd>`, `<dd>`, `</dl><li>` and a final `</ol>` as the test expects |
| TextForms.WordEnd | definitions/textextract.py:183 | the greedy `[a-zàéèíóòú·ç]*` stops at the first character outside the class |
| TextForms.LastFormIn | definitions/textextract.py:183 | the leading greedy `.*` picks the last `{{forma-a\|ca\|` on the line |
| TextForms.AlternativeForm | definitions/textextract.py:179-192 | the captured word holds only characters of the word class |
| TextForms.AlternativeIsFormWord | definitions/textextract.py:183-190 | a non-empty capture is the word of some `{{forma-a\|ca\|` on the line |
| TextForms.NoFormNoAlternative | definitions/textextract.py:185-192 | with no `{{forma-a\|ca\|…}}` on the line the result is "" |
| TextForms.LastFormOnLine | definitions/test/testtextextract.py:115-120 | following `_get_alternative_form`, `…{{forma-a\|ca\|w}}post` gives `w` |
| TextForms.OtherLanguageForm | definitions/test/testtextextract.py:122-127 | following `_get_alternative_form`, `{{forma-a\|es\|w}}` gives "" |
| TextForms.HasText | definitions/textextract.py:194-195 | true exactly when some character is in `[a-zA-Z]` |
| TextForms.HeadingAt | definitions/textextract.py:213 | a match of `===[ ]*Verb[ ]*===` at `i` is exactly a `===`, spaces, `Verb`, spaces and `===` from `i`, and it ends after that last `===`; `HeadingShapeMatches` gives the converse |
| TextForms.HeadingShapeMatches | definitions/textextract.py:213 | every `===`, spaces, `Verb`, spaces, `===` run at `i` is matched, ending after its last `===` |
| TextForms.FindHeading | definitions/textextract.py:216-218 | `re.search` returns the match at the leftmost position from `i` that has one, and none exactly when no position from `i` on matches |
| TextDescription.Section | definitions/textextract.py:216-229 | no section exactly when there is no heading or no `==` after it; otherwise the section runs from the end of the heading to the first `==` after it |
| TextDescription.Step | definitions/textextract.py:245-260 | a line is appended exactly when its converted form has a letter. Both list flags advance even for a dropped line. A found alternative is kept |
| TextDescription.GetDescription | definitions/textextract.py:197-272 | the readline loop computes exactly `Description`: heading, cut, gallery removal, per-line pipeline with the corrected template stripper, stop mark and suffix |
| TextDescription.CleanLineAgrees | definitions/textextract.py:248-251 | on a line where no template pass meets a stray `}}`, the four strippers as written, with a recursion budget of at least the line length, give the corrected line |
| TextDescription.NoSectionNoDescription | definitions/textextract.py:216-227 | no heading, or no `==` after it, gives "" |
| TextDescription.StopMarkCaseless | definitions/textextract.py:242 | `{{-` occurs in the lower-cased line exactly when it occurs in the line |
| TextDescription.StopsHere | definitions/textextract.py:241-243 | a line containing `{{-` ends processing with the state unchanged |
| TextDescription.AlternativeKept | definitions/textextract.py:245-246 | once an alternative is found, later lines never change it |
| TextDescription.VerbGrowsByText | definitions/textextract.py:256-260 | the description only grows, by pieces that each contain a letter |
| TextDescription.FirstLineWithText | definitions/textextract.py:256-260 | a non-stop line whose converted form has a letter is appended |
| TextDescription.SuffixWhenKnown | definitions/textextract.py:262-270 | the suffix is added exactly when the alternative is non-empty and in `infinitives` |
| TextDescription.SuffixLinksAlternative | definitions/textextract.py:266 | the suffix names the alternative both in the link and in its text |
| TextDescription.NoInfinitivesNoSuffix | definitions/textextract.py:262-270 | with `infinitives=None` no suffix is ever added |
| Definitions.WithoutReflexivePronoun | definitions/definitions.py:80-88 | removes a trailing `'s`, else a trailing `-se`, else nothing. The result is a prefix of the input |
| Definitions.OneSuffixRemoved | definitions/definitions.py:83-86 | at most one suffix is removed: `v-se's` gives `v-se` |
| Definitions.PageEntry | definitions/definitions.py:109-137 | a page is stored exactly when its normalised title is an infinitive, its text has `{{ca-verb` and its description is non-empty |
| Definitions.DefinitionsOf | definitions/definitions.py:115-137 | every stored key is an infinitive mapped to a non-empty description |
| Definitions.LoadDefinitions | definitions/definitions.py:95-139 | the page loop computes exactly `DefinitionsOf` |
| Definitions.StoredKeys | definitions/definitions.py:115-137 | a key is stored exactly when some page passes all filters with it |
| Definitions.LastWriteWins | definitions/definitions.py:137 | a key maps to the description of the last page that stored it |
| Definitions.MissingOrWritten | definitions/definitions.py:144-155 | `not_def` plus the verbs written equals the number of infinitives, and each written verb is defined |
| Definitions.NoneMissing | definitions/definitions.py:147-151 | `not_def` is 0 exactly when every infinitive (repeats included) has a definition |
| Definitions.SaveDefinitions | definitions/definitions.py:144-155 | the loop computes `MissingCount` and writes each defined verb and its definition on two lines |
| Definitions.AsWrittenLosesVerb | definitions/definitions.py:43 | reading `"anar\n"` character by character gives 5 entries and no `anar` |
| Definitions.AsWrittenStoresNoVerb | definitions/definitions.py:43 | with those entries no key longer than one character is ever stored |
| Definitions.InfinitivesPerLine | definitions/definitions.py:43 | the corrected reader gives one lower-cased stripped entry per line |
| Definitions.Generate | definitions/definitions.py:62-64 | the pipeline reads infinitives per line, loads definitions from them and saves them |
| Reflexius.Reflexius.LoadReflexius | extractor/reflexius.py:41-45 | the set is exactly the stripped lines |
| Reflexius.Reflexius.GetReflexiu | extractor/reflexius.py:58-62 | a lemma outside the set is returned unchanged. A lemma in the set gets `'s` after a final `e`, else `-se`. An empty lemma in the set raises `IndexError` |
| Reflexius.PronounRoundTrip | extractor/reflexius.py:58-62 | removing the pronoun (`get_without_reflexive_pronoun`, definitions/definitions.py) from the reflexive form of a non-empty verb of the set gives the verb back |
| DictionaryFile.Sanitize | extractor/dictionaryfile.py:172 | each character outside `\w`, `·`, `-`, `(`, `)`, `\|` becomes a space, and every other one is kept |
| DictionaryFile.Words | extractor/dictionaryfile.py:172 | `split()` yields non-empty tokens without spaces |
| DictionaryFile.Parse | extractor/dictionaryfile.py:169-176 | fewer than three tokens raise `IndexError`, otherwise the three are non-empty |
| DictionaryFile.ParseLine | extractor/dictionaryfile.py:169-176 | `form lemma postag` followed by non-token characters parses to those three tokens |
| DictionaryFile.InfinitiveLemmasOk | extractor/dictionaryfile.py:72-73 | the lemma list exists exactly when every line parses |
| DictionaryFile.InfinitiveLemmasSound | extractor/dictionaryfile.py:69-78 | every listed lemma comes from a line whose postag is VMN00000, VAN00000 or VSN00000 |
| DictionaryFile.InfinitiveLineAppends | extractor/dictionaryfile.py:75-78 | an infinitive line appends its lemma, in line order |
| DictionaryFile.DictionaryFile.GetLemmasForInfinitives | extractor/dictionaryfile.py:62-80 | the loop computes exactly `InfinitiveLemmas(lines)` |
| DictionaryFile.RemoveFirst | extractor/dictionaryfile.py:95 | `list.remove` takes out one occurrence: the multiset loses exactly one copy of the line |
| DictionaryFile.KeptRemoveFirst | extractor/dictionaryfile.py:94-95 | removing the first equal copy of an excluded line does not change which lines are kept |
| DictionaryFile.KeptMoves | extractor/dictionaryfile.py:90-95 | a kept line moves from the unvisited front to the result without changing it |
| DictionaryFile.DictionaryFile.ExcludeLemmasList | extractor/dictionaryfile.py:82-97 | succeeds exactly when every line parses. The lines then become the original ones minus every line whose lower-cased lemma is in `lemmas`, in order |
| DictionaryFile.GroupsSound | extractor/dictionaryfile.py:102-109 | every recorded `(i, form)` names line `i` with that form, lemma and tag, with `i` ascending inside a group |
| DictionaryFile.GroupsComplete | extractor/dictionaryfile.py:103-107 | every line with the tag is recorded under its lemma |
| DictionaryFile.DictionaryFile.LoadSpecificLemmasWithPos | extractor/dictionaryfile.py:99-109 | the loop computes exactly `LemmasWithPos` |
| DictionaryFile.ValTag | extractor/dictionaryfile.py:131 | the Valencian tag is the tag with its last character replaced by `V` |
| DictionaryFile.DictionaryFile.ValenciaUpdateTagInLine | extractor/dictionaryfile.py:122-133 | only `lines[line_idx]` changes, with every occurrence of the tag replaced |
| DictionaryFile.FirstEnding | extractor/dictionaryfile.py:141-143 | `next(...)` gives the index of the first form ending in the suffix, or none when no form does |
| DictionaryFile.RetagIndex | extractor/dictionaryfile.py:139-146 | a group is retagged exactly when some form ends in `central` and some in `valencia`, at a line whose form ends in `valencia` |
| DictionaryFile.AsWrittenSkipsFirstLine | extractor/dictionaryfile.py:145 | as written, the retag index equals the corrected one except that index 0 is dropped |
| DictionaryFile.RetaggedLine | extractor/dictionaryfile.py:135-147 | every retagged line has the tag and a form ending in `valencia`, and its lemma has a line ending in `central` |
| DictionaryFile.RetaggedOncePerLemma | extractor/dictionaryfile.py:139-147 | at most one line per lemma is retagged |
| DictionaryFile.DictionaryFile.ValenciaForm | extractor/dictionaryfile.py:135-149 | succeeds exactly when every line parses, and a failure leaves the lines as they were. On success the lines become `ValenciaLines`: exactly the lines of `Retagged` get the Valencian tag and every other line is unchanged |
| DictionaryFile.ValenciaLines | extractor/dictionaryfile.py:135-149 | the retagged lines, one per original line |
| DictionaryFile.DictionaryFile.RetagGroups | extractor/dictionaryfile.py:139-147 | the loop over the groups retags exactly `RetagSet` of all groups with more than one form |
| DictionaryFile.DictionaryFile.Valencia | extractor/dictionaryfile.py:111-120 | on success every line parsed and the lines are the participle pass (`ès`/`és` on VMP00SM0) followed by the infinitive pass (`èixer`/`éixer` on VMN00000), each as `ValenciaLines` gives it |
| DictionaryFile.RewriteAnarStable | extractor/dictionaryfile.py:163-165 | a rewritten line still parses, and rewriting it again changes nothing |
| DictionaryFile.AnarAuxIsInfinitive | extractor/dictionaryfile.py:167 | read back by `get_lemmas_for_infinitives`, the appended `anar anar_aux VAN00000` line contributes `anar_aux` to the infinitive lemmas |
| DictionaryFile.DictionaryFile.PreProcessAnarAuxiliar | extractor/dictionaryfile.py:155-167 | succeeds exactly when every line parses. Each `anar`/`VA…` line is rewritten and the others are unchanged, then the one auxiliary line is appended |
| DictionaryFile.DictionaryFile.Prepare | extractor/dictionaryfile.py:46-48 | on success every original line parsed, and the lines are the two Valencian passes, then the `anar` rewrite, then the auxiliary line at the end |
| ExclusionsFile.GatheredIff | extractor/exclusionsfile.py:68-79 | a lemma is kept exactly when some line, lower-cased and stripped, equals it and is neither empty nor a comment |
| ExclusionsFile.DuplicateAddsNothing | extractor/exclusionsfile.py:79 | a line repeating an earlier lemma adds nothing |
| ExclusionsFile.GatheredSnoc | extractor/exclusionsfile.py:71-79 | one more line adds its normalised lemma exactly when it is neither empty nor a comment |
| ExclusionsFile.ProcessExclusions | extractor/exclusionsfile.py:55-82 | an empty path gives the empty set, otherwise exactly `Gathered(lines)` |
| ExclusionsFile.ExclusionsFile.constructor | extractor/exclusionsfile.py:32-40 | the stored lemmas are those `_process_exclusions` returns: none for an empty path, otherwise exactly `Gathered` of the file's lines |
| ExclusionsFile.ExclusionsFile.GetLemmas | extractor/exclusionsfile.py:42-49 | returns the stored set |
| Diacritics.LineDiacritic | extractor/diacritics.py:53-59 | an empty stripped line raises `IndexError`, and a `#` line is skipped. A line without exactly one `=` raises `ValueError`. Otherwise the line adds the text before `=` |
| Diacritics.LoadedDiacritics | extractor/diacritics.py:43-62 | loading succeeds exactly when every line does, and then holds exactly the lines' sources. It otherwise fails with the first failing line's error |
| Diacritics.Diacritics.LoadDiacritics | extractor/diacritics.py:36-62 | the set becomes the loaded one, and on an error it is left as it was |
| Diacritics.Diacritics.HasWordDiacritic | extractor/diacritics.py:64-86 | without `/`, true exactly when the stripped word is in the set. With `/`, true exactly when some stripped piece is |
| Diacritics.Diacritics.constructor | extractor/diacritics.py:30-34 | the set starts empty, so no word has a diacritic |
| Forms.NewForm | extractor/forms.py:33-59 | the word is prefix + word (unchanged for `None`). The diacritic attribute exists exactly when it is true |
| Forms.NewFormEndsInWord | extractor/forms.py:53-56 | the stored word ends in the given word after exactly the prefix |
| Forms.FormsTextOneLine | extractor/forms.py:61-63 | forms without line breaks render on one line |
| Forms.Tense.constructor | extractor/forms.py:77-94 | the six person lists start empty |
| Forms.Tense.ToString | extractor/forms.py:96-106 | `+=` building gives the header line, then one line per person |
| Forms.TenseLines | extractor/forms.py:96-106 | splitting the text on line breaks gives the header, the six person lines and a final "" |
| Forms.EmptyTenseText | extractor/forms.py:89-106 | a new tense renders as its header followed by seven line breaks |
| FirstLetter.FromWord | indexer/firstletter.py:43-61 | a `None` or empty word gives "", otherwise exactly one character |
| FirstLetter.GetLetters | indexer/firstletter.py:63-70 | exactly the 26 letters `a`..`z` in order |
| FirstLetter.LettersExactly | indexer/firstletter.py:30 | a string is a letter exactly when it is one character in `a`..`z`, and the letters ascend |
| FirstLetter.FromWordAccepted | indexer/firstletter.py:43-70 | a word's letter is accepted exactly when it starts with an ASCII letter or one of à è é í ó ò ú (either case) |
| FirstLetter.UnaccentedOnlyVowels | indexer/firstletter.py:48-59 | the mapping changes exactly à è é í ó ò ú, so `ç` stays `ç` |
| Index.VerbsToIgnoreInAutocomplete | indexer/index.py:49-74 | true only in the three modes. In Indicatiu it holds exactly for the seven compound tenses, in Subjuntiu for Perfet and Plusquamperfet, and in Formes no personals for the two compound forms |
| Index.InfinitiveIndexed | indexer/index.py:49-74 | the simple `Infinitiu` tense is never ignored |
| Index.GerundIndexed | indexer/index.py:49-74 | the simple `Gerundi` tense is never ignored |
| Index.PeriphrasticAnteriorRedundant | indexer/index.py:56-57 | a tense with `Passat anterior perifràstic` already contains `Passat anterior` |
| BaseIndex.AgreesWithWhoosh | indexer/indices/base.py:46-71 | the Elasticsearch predicate equals the Whoosh one on every mode and tense |
| BaseIndex.OtherModesIndexed | indexer/indices/base.py:46-71 | any other mode is never ignored |
| AutocompleteIndex.SortingKey | indexer/indices/autocomplete.py:157-165 | the key is `_` + infinitive for an infinitive, otherwise verb form + `_` + infinitive |
| AutocompleteIndex.InfinitivesSortFirst | indexer/indices/autocomplete.py:162-163 | an infinitive's key sorts before the key of any form starting with a-z |
| AutocompleteIndex.InfinitiveKeysInjective | indexer/indices/autocomplete.py:161-163 | distinct infinitives have distinct infinitive keys |
| AutocompleteIndex.AutocompleteIndex.EnsureIndex | indexer/indices/autocomplete.py:35-52 | the name is `autocomplete-` + letter, and it is created once, only when not yet created |
| AutocompleteIndex.AutocompleteIndex.WriteEntry | indexer/indices/autocomplete.py:105-155 | an ignored tense changes nothing, and a letter outside a-z raises before any index is created. Otherwise the index is ensured (one more `create_index` call exactly when it is new), a repeated key queues nothing, and a new key queues one op with infinitive=title and url=infinitive. Queued keys stay distinct |
| AutocompleteIndex.AutocompleteIndex.Save | indexer/indices/autocomplete.py:167-178 | no ops raises, otherwise the ops are sent and cleared and `duplicates` is kept |
| LetterIndex.EntryOp | indexer/indices/letter.py:108-127 | `index_letter` is none exactly for a non-infinitive. For an infinitive with verb_form == infinitive != title the verb form becomes the title, and in every other case it is the given verb form |
| LetterIndex.LetterIndex.WriteEntry | indexer/indices/letter.py:91-127 | exactly one op is queued, and `entries` grows by one exactly for an infinitive |
| LetterIndex.LetterIndex.Save | indexer/indices/letter.py:129-139 | no ops raises, otherwise the ops are sent and cleared |
| LetterIndex.CountLetteredAppend | indexer/indices/letter.py:113-114 | the count of lettered ops adds up over concatenation |
| SearchIndex.EntryOps | indexer/indices/search.py:125-158 | an ignored tense queues nothing. Two ops are queued when verb_form == infinitive != title (the title op first) and one otherwise. The letter is set exactly for an infinitive |
| SearchIndex.SearchIndex.WriteEntry | indexer/indices/search.py:102-158 | appends exactly `EntryOps` |
| SearchIndex.SearchIndex.Save | indexer/indices/search.py:160-170 | no ops raises, otherwise the ops are sent and cleared |
| Autocomplete.SortingKey | indexer/autocomplete.py:132-140 | the same key as the Elasticsearch builder |
| Autocomplete.FormKeyNotInfinitiveKey | indexer/autocomplete.py:135-140 | a form's key never equals an infinitive key of the same pair |
| Autocomplete.Autocomplete.Create | indexer/autocomplete.py:46-50 | changes nothing |
| Autocomplete.Autocomplete.WriteEntry | indexer/autocomplete.py:79-130 | an ignored tense adds nothing, and a letter outside a-z raises `IndexError` before any writer exists. The letter's writer and index are created lazily, even for a duplicate, and only when it had none. A new key adds one document with infinitive=title and url=infinitive |
| Autocomplete.Autocomplete.OpenWriter | indexer/autocomplete.py:110-114 | the letter gets a writer, and its index is created only if it had none; the documents, keys and commits stay as they were |
| Autocomplete.Autocomplete.AddDocument | indexer/autocomplete.py:122-130 | a document with an unseen sorting key is appended, and the key is recorded, so keys stay unique across documents; the writers, created indices and commits stay as they were |
| Autocomplete.Autocomplete.Save | indexer/autocomplete.py:142-147 | every writer's documents are committed and nothing else changes |
| Search.EntryDocs | indexer/search.py:91-113 | an ignored tense adds nothing. Two documents are added when verb_form == infinitive != title (title first) and one otherwise. The letter is set exactly for an infinitive |
| Search.Search.Create | indexer/search.py:47-66 | a writer now exists, with no documents |
| Search.Search.WriteEntry | indexer/search.py:68-113 | with a writer it adds exactly `EntryDocs`, and without one it adds nothing |
| Search.Search.Save | indexer/search.py:115-124 | no writer raises `AttributeError`, otherwise the documents are committed |
| IndexLetter.EntryDocs | indexer/indexletter.py:81-96 | only an infinitive gives a document. Its letter comes from `from_word`, and its form is the title exactly when the form already is the title or verb_form == infinitive != title |
| IndexLetter.IndexLetter.Create | indexer/indexletter.py:46-62 | a writer now exists, with no documents |
| IndexLetter.IndexLetter.WriteEntry | indexer/indexletter.py:64-96 | `entries` grows exactly for an infinitive, and documents are added only with a writer |
| IndexLetter.IndexLetter.Save | indexer/indexletter.py:98-107 | no writer raises `AttributeError`, otherwise the documents are committed |
| IndexCreator.Parts | indexer/indexcreator.py:130 | one stripped part per `/`-separated piece |
| IndexCreator.WordWrites | indexer/indexcreator.py:130-145 | each part is written with `is_infinitive` = (tense == "Infinitiu") |
| IndexCreator.AfterWord | indexer/indexcreator.py:127-128 | a word already indexed (as a whole) writes nothing |
| IndexCreator.AfterForm | indexer/indexcreator.py:112-113 | a form with definition credits contributes nothing |
| IndexCreator.FileHasInfinitive | indexer/indexcreator.py:148-158 | the file's writes always include an infinitive; the fallback is added exactly when none was written |
| IndexCreator.WordPartsWritten | indexer/indexcreator.py:130-145 | a new word writes its parts in order |
| IndexCreator.WrittenOneMore | indexer/indexcreator.py:92 | one more write adds its verb form to `indexed` |
| IndexCreator.IndexCreator.constructor | indexer/indexcreator.py:38-54 | three fresh indices, with the search and letter writers created |
| IndexCreator.IndexCreator.WriteEntry | indexer/indexcreator.py:56-92 | writes go to search, then autocomplete, then indexletter. A rejected letter raises `IndexError` after the search write, leaving autocomplete and indexletter untouched. Otherwise an ignored tense leaves autocomplete as it was; any other tense gives the letter a writer (creating its index when it had none) and, for a new sorting key, exactly one document with infinitive=title, while a repeated key adds nothing. The verb form joins `indexed`, and no index commits anything |
| IndexCreator.IndexCreator.GetTitle | indexer/indexcreator.py:94-100 | returns the first non-empty title, and raises when there is none |
| IndexCreator.IndexCreator.WriteForms | indexer/indexcreator.py:110-145 | the nested loops perform exactly `AfterForms` of the records, or stop at a rejected write among them |
| IndexCreator.IndexCreator.ProcessFile | indexer/indexcreator.py:102-160 | with no title it raises before writing. Otherwise it succeeds exactly when no write of `FileWrites` is rejected, performs exactly those writes and returns the number of distinct verb forms |
| IndexCreator.RejectedInFile | indexer/indexcreator.py:104-145 | a rejected write among the records makes the file fail |

## Left out

- File, XML and JSON input are not modelled:
  - `ET.parse` and `_get_revision_text` (definitions/definitions.py:35-40, 93-113): pages are given as (title, text) pairs;
  - `_read_file`, `readlines`, `load_reflexius`' file lookup and `load_diacritics`' file lookup: each file is given as its list of lines;
  - the JSON of a conjugation file: given as its infinitive and a sequence of form records. Every record is assumed to have a `title` key, whose `None` value becomes ""; a record without the key, on which `form["title"]` raises `KeyError` (indexer/indexcreator.py:96), is not modelled.
- Output files are not modelled. `_save_definitions` yields the counted `not_def` and the text of definitions.txt; the JSON dump is left out. `logging` and `print` calls are left out.
- Python dict iteration order is not modelled: `_valencia_form` visits the groups in an unspecified order, which is harmless because each group retags a distinct line.
- Elasticsearch and Whoosh plumbing is not modelled, because it calls libraries that are not part of this model:
  - the client, `ping`, `create_index` mappings and `_build_mapping`;
  - schemas, analyzers, `_create_dir`, `doc_count`;
  - the existence checks of `_ensure_index` in letter.py and search.py.

  `helpers.bulk` and `commit` become appends to a sent/committed log.
- `process_files`, `_save_indexes`, indexer/findfiles.py, extractor/notes.py and web/ are not part of this model.
- `get_form_lemma_postag` (a generator over `_get_form_lemma_postag_from_line`) is left out; its per-line parse is modelled.
- `_remove_templates` as written: Python's recursion limit is a `fuel` parameter; `None` stands for the `RecursionError`.
- TextInline.RemoveInternalLinks: `_remove_internal_links` calls itself once per link (definitions/textextract.py:80), so a line with more links than Python's recursion limit allows raises `RecursionError`. The model is total and does not capture that error.
- TextDescription.GetDescription: it uses the corrected template stripper (see Findings). On a line where a template pass meets a `}}` ahead of every `{{`, the code as written differs or raises `RecursionError`; `CleanLineAgrees` states that the two agree on every other line.
- Definitions.LoadDefinitions: it calls `GetDescription`, so it too uses the corrected template stripper, with the same agreement on lines free of a stray `}}`.
- DictionaryFile.Sanitize: `\w` is approximated by ASCII letters and digits, `_`, `ª`, `µ`, `º`, the Latin-1 letters `À`-`ÿ` except `×` and `÷`, and the Latin Extended-A letters `Ā`-`ſ`, not Python's full Unicode class.
- `lower()` (exclusions, titles, first letters) maps only `A`-`Z` and the Latin-1 capitals `À`-`Þ` except `×`; other capitals are kept.
- FirstLetter.FromWord: `word[0].lower()` is one character here; Python's lower-casing can give two characters for a few letters (e.g. `İ`).
- DictionaryFile.DictionaryFile.ValenciaForm: it retags the first Valencian form even at line 0, following the corrected `RetagIndex` (see Findings); the as-written behaviour is stated by `AsWrittenSkipsFirstLine`.
- DictionaryFile.DictionaryFile.Valencia: its contract states the lines on success, but not that it fails only when a line does not parse; `ValenciaForm` states that for each pass.
- DictionaryFile.DictionaryFile.Prepare: like `Valencia`, it does not state that it fails only when a line does not parse.
- IndexCreator.IndexCreator.ProcessFile: the written sequence `writes` is ghost, and a failing file's partial writes are stated only as "some write was rejected". The count of `indexed` is the count of distinct written verb forms.
- Definitions.Generate reads the infinitives one per line, following the corrected `InfinitivesPerLine` (see Findings).
- `__init__` of `DictionaryFile` is split into a constructor that stores the lines and `Prepare`, which runs `_valencia` and `_pre_process_anar_auxiliar`.

## Findings

| source | as written | input that shows it | evidently intended | confidence | as-written member | corrected member |
|---|---|---|---|---|---|---|
| definitions/textextract.py:103-122 | a `}}` met before any `{{` sets `end_pos` and makes `opened` negative. On `a}}b{{c` with brace-free `a` and `b`, the cut `line[:start_pos] + line[end_pos:]` has `end_pos < start_pos`, so it repeats `b` and the recursion never ends | `"x}} {{y}}"` (any `a}}b{{c` with brace-free `a`, `b`) | return a line whose `}}` comes before every `{{` unchanged, like the fallbacks at lines 115-116 and 118-119 | not executed | TextMarkup.TemplatesAsWrittenDiverge | TextMarkup.StrayCloseKept |
| definitions/definitions.py:43 | iterates over the characters of `read_text()`, so every entry is at most one character and no verb is ever stored | a file holding `"anar\n"` gives `["a","n","a","r",""]` | one lower-cased, stripped entry per line | not executed | Definitions.AsWrittenLosesVerb | Definitions.InfinitivesPerLine |
| extractor/dictionaryfile.py:145 | `if found_ca and index_va` treats index 0 as false, so a Valencian form on the first line is never retagged | forms `[(0, "conéixer"), (1, "conèixer")]` with central `èixer` and valencia `éixer` | test the index against `None` | not executed | DictionaryFile.FirstLineLeftUntagged | DictionaryFile.RetagIndex |
