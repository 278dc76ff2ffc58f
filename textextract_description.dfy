// `TextExtract.get_description` (definitions/textextract.py): find the
// `===Verb===` section, cut it at the next `==`, drop its first gallery, and
// read it line by line through the strippers and the list converter.

module TextDescription {
  import opened Strings
  import opened Wrappers
  import TextMarkup
  import TextInline
  import TextLists
  import TextForms

  /** The text that ends the section. */
  const SectionEnd := "=="
  /** A line holding it (in any case) ends the reading: `{{-sin-}}`, `{{-trad-}}`… */
  const StopMark := "{{-"
  const SuffixHead := "<p style='font-weight: 300'>Forma alternativa a <a href='/conjugador-de-verbs/verb/"
  const SuffixMiddle := "'>"
  const SuffixTail := "</a></p>"

  /** What the loop of `get_description` threads from line to line. */
  datatype State = State(verb: string, openOl: bool, openDl: bool, alternative: string)

  const Start := State("", false, false, "")

  /** The section runs from the end of the leftmost heading to the first
      `==` after it; there is none when either is missing. */
  function Section(text: string): (r: Option<string>)
    ensures r.None? <==> (TextForms.FindHeading(text, 0).None? ||
                          forall e :: TextForms.FindHeading(text, 0).value <= e ==> !OccursAt(text, SectionEnd, e))
    ensures r.Some? ==> var h := TextForms.FindHeading(text, 0).value;
      exists e :: h <= e && OccursAt(text, SectionEnd, e) && NoSectionEnd(text, h, e) && r.value == text[h..e]
  {
    match TextForms.FindHeading(text, 0)
    case None => None
    case Some(start) =>
      var end := Find(text, SectionEnd, start);
      if end < 0 then None else Some(text[start..end])
  }

  /** No `==` starts in `text[h..e]`. */
  predicate NoSectionEnd(text: string, h: nat, e: nat) {
    forall j :: h <= j < e ==> !OccursAt(text, SectionEnd, j)
  }

  /** Where `buf.readline()` at `pos` leaves the buffer: after the next
      newline, or at the end. */
  function NextLine(s: string, pos: nat): (next: nat)
    requires pos < |s|
    ensures pos < next <= |s|
  {
    var e := TextInline.LineEnd(s, pos);
    if e < |s| then e + 1 else |s|
  }

  /** A line at which the reading stops: `"{{-" in s.lower()`. */
  predicate Stops(line: string) {
    Contains(Lower(line), StopMark)
  }

  /** The four strippers in the order the loop applies them. */
  function CleanLine(line: string): string {
    TextInline.RemoveXmlTags(TextInline.RemoveMediawikiMarkup(
      TextInline.RemoveInternalLinks(TextMarkup.RemoveTemplates(line))))
  }

  /** The four strippers as written: `None` is the `RecursionError` of the
      template stripper under the recursion budget `fuel`. */
  function CleanLineAsWritten(line: string, fuel: nat): Option<string> {
    match TextMarkup.RemoveTemplatesAsWritten(line, fuel)
    case None => None
    case Some(t) =>
      Some(TextInline.RemoveXmlTags(TextInline.RemoveMediawikiMarkup(TextInline.RemoveInternalLinks(t))))
  }

  /** Where no pass of the template stripper meets a `}}` ahead of every
      `{{`, the strippers as written and the corrected ones agree. */
  lemma CleanLineAgrees(line: string, fuel: nat)
    requires TextMarkup.StrayFreeChain(line) && |line| <= fuel
    ensures CleanLineAsWritten(line, fuel) == Some(CleanLine(line))
  {
    TextMarkup.AsWrittenAgreesOnChain(line, fuel);
  }

  /** One pass of the loop body over a line that does not stop the reading.
      The flags follow the converter even when the line is discarded. */
  function Step(st: State, line: string): (r: State)
    ensures var h := TextLists.ConvertToHtml(CleanLine(line), st.openOl, st.openDl).0;
      && (r.verb == st.verb + h || r.verb == st.verb)
      && (TextForms.HasText(h) <==> r.verb == st.verb + h && h != [])
    ensures var c := Strip(CleanLine(line));
      && r.openOl == (TextLists.IsOlItem(c) || (st.openOl && TextLists.IsDlItem(c)))
      && r.openDl == (TextLists.IsDlItem(c) && TextLists.DlText(c) != [])
    ensures st.alternative != [] ==> r.alternative == st.alternative
  {
    var alternative := if |st.alternative| == 0 then TextForms.AlternativeForm(line) else st.alternative;
    var (h, ol, dl) := TextLists.ConvertToHtml(CleanLine(line), st.openOl, st.openDl);
    LettersNonEmpty(h);
    State(if TextForms.HasText(h) then st.verb + h else st.verb, ol, dl, alternative)
  }

  lemma LettersNonEmpty(h: string)
    ensures TextForms.HasText(h) ==> h != []
  {
  }

  /** The loop from the line at `pos` to the end or to the stopping line. */
  function ProcessFrom(s: string, pos: nat, st: State): State
    requires pos <= |s|
    decreases |s| - pos
  {
    if pos == |s| then st
    else
      var next := NextLine(s, pos);
      var line := s[pos..next];
      if Stops(line) then st else ProcessFrom(s, next, Step(st, line))
  }

  /** The closing paragraph that links to the alternative infinitive. */
  function Suffix(alternative: string): string {
    SuffixHead + alternative + SuffixMiddle + alternative + SuffixTail
  }

  /** After the loop: the suffix when the alternative is a known infinitive. */
  function Finish(st: State, infinitives: seq<string>): string {
    if st.alternative != [] && st.alternative in infinitives then st.verb + Suffix(st.alternative)
    else st.verb
  }

  /** `infinitives=None` stands for the empty list. */
  function Infinitives(infinitives: Option<seq<string>>): seq<string> {
    if infinitives.None? then [] else infinitives.value
  }

  /** What `get_description` returns. */
  function Description(text: string, infinitives: Option<seq<string>>): string {
    match Section(text)
    case None => ""
    case Some(section) =>
      Finish(ProcessFrom(TextMarkup.RemoveGallerySections(section), 0, Start), Infinitives(infinitives))
  }

  /** `get_description`, with its `readline` loop. */
  method GetDescription(text: string, infinitives: Option<seq<string>>) returns (verb: string)
    ensures verb == Description(text, infinitives)
  {
    var known := if infinitives.None? then [] else infinitives.value;
    verb := "";
    var heading := TextForms.FindHeading(text, 0);
    if heading.None? {
      return;
    }
    var start := heading.value;
    var end := Find(text, SectionEnd, start);
    if end < 0 {
      return;
    }
    var s := text[start..end];
    s := TextMarkup.RemoveGallerySections(s);
    var pos := 0;
    var openOl, openDl := false, false;
    var alternative := "";
    while pos < |s|
      invariant pos <= |s|
      invariant Finish(ProcessFrom(s, pos, State(verb, openOl, openDl, alternative)), known)
             == Description(text, infinitives)
      decreases |s| - pos
    {
      var next := NextLine(s, pos);
      var line := s[pos..next];
      if Contains(Lower(line), StopMark) {
        break;
      }
      ghost var before := State(verb, openOl, openDl, alternative);
      if |alternative| == 0 {
        alternative := TextForms.AlternativeForm(line);
      }
      var cleaned := CleanLine(line);
      var converted := TextLists.ConvertToHtml(cleaned, openOl, openDl);
      openOl, openDl := converted.1, converted.2;
      if TextForms.HasText(converted.0) {
        verb := verb + converted.0;
      }
      assert State(verb, openOl, openDl, alternative) == Step(before, line);
      pos := next;
    }
    if alternative != [] && alternative in known {
      verb := verb + Suffix(alternative);
    }
  }

  // ---------------------------------------------------------------------
  // Properties
  // ---------------------------------------------------------------------

  /** No heading, or no `==` after it: the description is empty. */
  lemma NoSectionNoDescription(text: string, infinitives: Option<seq<string>>)
    requires TextForms.FindHeading(text, 0).None?
          || Find(text, SectionEnd, TextForms.FindHeading(text, 0).value) < 0
    ensures Description(text, infinitives) == []
  {
  }

  /** Lower-casing cannot make or unmake `{{-`: no capital lowers to `{` or `-`. */
  lemma StopMarkCaseless(line: string)
    ensures Stops(line) <==> Contains(line, StopMark)
  {
    var low := Lower(line);
    ContainsIff(low, StopMark);
    ContainsIff(line, StopMark);
    forall i | OccursAt(low, StopMark, i)
      ensures OccursAt(line, StopMark, i)
    {
      StopMarkAt(line, i);
    }
    forall i | OccursAt(line, StopMark, i)
      ensures OccursAt(low, StopMark, i)
    {
      StopMarkAt(line, i);
    }
  }

  lemma StopMarkAt(line: string, i: int)
    ensures OccursAt(Lower(line), StopMark, i) <==> OccursAt(line, StopMark, i)
  {
    var low := Lower(line);
    if 0 <= i && i + |StopMark| <= |line| {
      var a, b := low[i..i + |StopMark|], line[i..i + |StopMark|];
      assert forall k :: 0 <= k < |StopMark| ==> a[k] == LowerChar(b[k]);
      assert forall k :: 0 <= k < |StopMark| ==> (LowerChar(b[k]) == StopMark[k] <==> b[k] == StopMark[k]);
      assert a == StopMark <==> b == StopMark;
    }
  }

  /** The stopping line and everything after it change nothing. */
  lemma StopsHere(s: string, pos: nat, st: State)
    requires pos < |s| && Contains(s[pos..NextLine(s, pos)], StopMark)
    ensures ProcessFrom(s, pos, st) == st
  {
    StopMarkCaseless(s[pos..NextLine(s, pos)]);
  }

  /** The alternative is read from raw lines only until one is found. */
  lemma {:induction false} AlternativeKept(s: string, pos: nat, st: State)
    requires pos <= |s| && st.alternative != []
    ensures ProcessFrom(s, pos, st).alternative == st.alternative
    decreases |s| - pos
  {
    if pos < |s| {
      var next := NextLine(s, pos);
      var line := s[pos..next];
      if !Stops(line) {
        AlternativeKept(s, next, Step(st, line));
      }
    }
  }

  /** `v` is `u` followed by nothing, or by text that holds a letter. */
  predicate GrowsByText(u: string, v: string) {
    |u| <= |v| && v[..|u|] == u && (v == u || TextForms.HasText(v[|u|..]))
  }

  /** The description only grows, and only by lines that hold a letter. */
  lemma {:induction false} VerbGrowsByText(s: string, pos: nat, st: State)
    requires pos <= |s|
    ensures GrowsByText(st.verb, ProcessFrom(s, pos, st).verb)
    decreases |s| - pos
  {
    if pos < |s| {
      var next := NextLine(s, pos);
      var line := s[pos..next];
      if !Stops(line) {
        var st' := Step(st, line);
        VerbGrowsByText(s, next, st');
        StepGrows(st, line);
        GrowsTransitive(st.verb, st'.verb, ProcessFrom(s, next, st').verb);
      } else {
        assert ProcessFrom(s, pos, st) == st;
        assert st.verb[..|st.verb|] == st.verb;
      }
    } else {
      assert st.verb[..|st.verb|] == st.verb;
    }
  }

  lemma StepGrows(st: State, line: string)
    ensures GrowsByText(st.verb, Step(st, line).verb)
  {
    var v := Step(st, line).verb;
    assert v[..|st.verb|] == st.verb;
    if v != st.verb {
      assert v[|st.verb|..] == TextLists.ConvertToHtml(CleanLine(line), st.openOl, st.openDl).0;
    }
  }

  lemma GrowsTransitive(u: string, v: string, w: string)
    requires GrowsByText(u, v) && GrowsByText(v, w)
    ensures GrowsByText(u, w)
  {
    assert w[..|u|] == w[..|v|][..|u|];
    if v != u {
      assert w[|u|..] == v[|u|..] + w[|v|..];
      TextWithin(v[|u|..], w[|v|..]);
    } else if w != u {
      assert w[|u|..] == w[|v|..];
    }
  }

  lemma TextWithin(h: string, rest: string)
    requires TextForms.HasText(h)
    ensures TextForms.HasText(h + rest)
  {
    var k :| 0 <= k < |h| && TextForms.IsAsciiLetter(h[k]);
    assert (h + rest)[k] == h[k];
  }

  /** A line whose converted form holds a letter is appended. */
  lemma FirstLineWithText(s: string, pos: nat, st: State)
    requires pos < |s| && !Stops(s[pos..NextLine(s, pos)])
    requires TextForms.HasText(TextLists.ConvertToHtml(CleanLine(s[pos..NextLine(s, pos)]), st.openOl, st.openDl).0)
    ensures ProcessFrom(s, pos, st).verb != st.verb
  {
    var line := s[pos..NextLine(s, pos)];
    var st' := Step(st, line);
    VerbGrowsByText(s, NextLine(s, pos), st');
  }

  /** The alternative-form paragraph is added exactly when an alternative
      was found and is among the infinitives. */
  lemma SuffixWhenKnown(st: State, infinitives: seq<string>)
    ensures Finish(st, infinitives) != st.verb <==> st.alternative != [] && st.alternative in infinitives
    ensures Finish(st, infinitives) != st.verb ==> Finish(st, infinitives) == st.verb + Suffix(st.alternative)
  {
  }

  /** The paragraph names the alternative twice: as the link target and as
      the link text. */
  lemma SuffixLinksAlternative(alternative: string)
    ensures var r := Suffix(alternative);
      && OccursAt(r, alternative, |SuffixHead|)
      && OccursAt(r, alternative, |SuffixHead| + |alternative| + |SuffixMiddle|)
  {
    var r := Suffix(alternative);
    var m := |SuffixHead| + |alternative| + |SuffixMiddle|;
    assert r == (SuffixHead + alternative + SuffixMiddle) + (alternative + SuffixTail);
    assert r[m..] == alternative + SuffixTail;
    assert r[|SuffixHead|..] == alternative + (SuffixMiddle + alternative + SuffixTail) by {
      assert r == SuffixHead + (alternative + (SuffixMiddle + alternative + SuffixTail));
    }
  }

  /** Without a list of infinitives no paragraph is added. */
  lemma NoInfinitivesNoSuffix(text: string)
    ensures Section(text).Some? ==>
      Description(text, None) == ProcessFrom(TextMarkup.RemoveGallerySections(Section(text).value), 0, Start).verb
  {
  }
}
