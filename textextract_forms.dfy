// The three regular expressions `TextExtract` matches against whole lines or
// the whole page (definitions/textextract.py): the `forma-a` template of
// `_get_alternative_form`, the letter test of `_is_there_text` and the
// `===Verb===` heading of `get_description`, each written as a scanner.

module TextForms {
  import opened Strings
  import opened Wrappers
  import TextInline

  // ---------------------------------------------------------------------
  // `_get_alternative_form`: `.*{{forma-a\|ca\|([a-zàéèíóòú·ç]*)}}.*`
  // ---------------------------------------------------------------------

  const FormOpen := "{{forma-a|ca|"
  const FormClose := "}}"

  /** The character class of the captured word. */
  predicate IsFormChar(c: char) {
    || ('a' <= c <= 'z')
    || c == '\U{E0}' || c == '\U{E9}' || c == '\U{E8}' || c == '\U{ED}'
    || c == '\U{F3}' || c == '\U{F2}' || c == '\U{FA}' || c == '\U{B7}' || c == '\U{E7}'
  }

  /** The end of the longest run of word characters from `i`: what the greedy
      `[…]*` takes, and gives nothing back since `}` is not in the class. */
  function WordEnd(s: string, i: nat): (e: nat)
    requires i <= |s|
    ensures i <= e <= |s| && (e == |s| || !IsFormChar(s[e]))
    ensures forall k :: i <= k < e ==> IsFormChar(s[k])
    decreases |s| - i
  {
    if i == |s| || !IsFormChar(s[i]) then i else WordEnd(s, i + 1)
  }

  /** A whole `{{forma-a|ca|WORD}}` starts at `p`. */
  predicate FormAt(s: string, p: int) {
    OccursAt(s, FormOpen, p) && OccursAt(s, FormClose, WordEnd(s, p + |FormOpen|))
  }

  /** The captured group of the template at `p`. */
  function FormWord(s: string, p: int): string
    requires FormAt(s, p)
  {
    s[p + |FormOpen|..WordEnd(s, p + |FormOpen|)]
  }

  /** The last template starting in `[lo, hi)`, or -1: where the greedy
      leading `.*` gives back to. */
  function LastFormIn(s: string, lo: nat, hi: nat): (r: int)
    requires lo <= hi <= |s|
    ensures r == -1 || (lo <= r < hi && FormAt(s, r))
    ensures forall p :: lo <= p < hi && r < p ==> !FormAt(s, p)
    decreases hi - lo
  {
    if hi == lo then -1
    else if FormAt(s, hi - 1) then hi - 1
    else LastFormIn(s, lo, hi - 1)
  }

  /** `re.search` from the line that starts at `i`: the leading `.*` cannot
      cross a newline, so the first line holding a template matches, at its
      last template. */
  function AlternativeFrom(s: string, i: nat): (r: string)
    requires i <= |s|
    decreases |s| - i
  {
    var e := TextInline.LineEnd(s, i);
    var p := LastFormIn(s, i, e);
    if p >= 0 then FormWord(s, p)
    else if e == |s| then ""
    else AlternativeFrom(s, e + 1)
  }

  /** `_get_alternative_form`: the captured word, or `""` with no match. */
  function AlternativeForm(s: string): (r: string)
    ensures forall k :: 0 <= k < |r| ==> IsFormChar(r[k])
  {
    AlternativeWordChars(s, 0);
    AlternativeFrom(s, 0)
  }

  lemma {:induction false} AlternativeWordChars(s: string, i: nat)
    requires i <= |s|
    ensures forall k :: 0 <= k < |AlternativeFrom(s, i)| ==> IsFormChar(AlternativeFrom(s, i)[k])
    decreases |s| - i
  {
    var e := TextInline.LineEnd(s, i);
    var p := LastFormIn(s, i, e);
    if p < 0 && e < |s| {
      AlternativeWordChars(s, e + 1);
    }
  }

  /** A non-empty alternative is the word of a template on the line. */
  lemma {:induction false} AlternativeIsFormWord(s: string, i: nat)
    requires i <= |s|
    ensures AlternativeFrom(s, i) == [] || exists p :: i <= p && FormAt(s, p) && FormWord(s, p) == AlternativeFrom(s, i)
    decreases |s| - i
  {
    var e := TextInline.LineEnd(s, i);
    var p := LastFormIn(s, i, e);
    if p < 0 && e < |s| {
      AlternativeIsFormWord(s, e + 1);
    }
  }

  /** Without a whole `{{forma-a|ca|…}}` anywhere, nothing is captured. */
  lemma {:induction false} NoFormNoAlternative(s: string, i: nat)
    requires i <= |s|
    requires forall p :: i <= p ==> !FormAt(s, p)
    ensures AlternativeFrom(s, i) == []
    decreases |s| - i
  {
    var e := TextInline.LineEnd(s, i);
    if e < |s| {
      NoFormNoAlternative(s, e + 1);
    }
  }

  /** The template shape of the first alternative-form test: whatever comes
      before it on the line (other templates included), a `forma-a|ca`
      template captures its word when no `{` follows it. */
  lemma LastFormOnLine(line: string, pre: string, w: string, post: string)
    requires '\n' !in pre && '{' !in post
    requires forall k :: 0 <= k < |w| ==> IsFormChar(w[k])
    requires line == pre + (FormOpen + (w + (FormClose + post)))
    ensures AlternativeForm(line) == w
  {
    var p := |pre|;
    var q := p + |FormOpen|;
    var c := q + |w|;
    FormLayout(line, pre, w, post);
    assert WordEnd(line, q) == c by {
      WordEndIs(line, q, c);
    }
    assert FormAt(line, p);
    var e := TextInline.LineEnd(line, 0);
    assert e >= c + |FormClose| by {
      TextInline.LineEndAtLeast(line, 0, c + |FormClose|);
    }
    assert forall j :: p < j < e ==> !FormAt(line, j) by {
      forall j | p < j < e ensures !FormAt(line, j) {
        NoFormAfter(line, p, c, j);
      }
    }
    assert LastFormIn(line, 0, e) == p by {
      LastFormInIs(line, 0, e, p);
    }
    assert line[q..c] == w;
  }

  /** Where the characters of the shape come from. */
  lemma FormLayout(line: string, pre: string, w: string, post: string)
    requires '\n' !in pre && '{' !in post
    requires forall k :: 0 <= k < |w| ==> IsFormChar(w[k])
    requires line == pre + (FormOpen + (w + (FormClose + post)))
    ensures var q := |pre| + |FormOpen|; var c := q + |w|;
      && OccursAt(line, FormOpen, |pre|) && OccursAt(line, FormClose, c)
      && line[q..c] == w
      && (forall k :: 0 <= k < c + |FormClose| ==> line[k] != '\n')
      && (forall k :: q <= k < c ==> IsFormChar(line[k]))
      && (forall k :: |pre| + 2 <= k < |line| ==> line[k] != '{')
      && line[|pre| + 1] == '{' && line[|pre| + 2] == 'f'
  {
    assert '\n' !in w && '{' !in w by {
      forall k | 0 <= k < |w| ensures w[k] != '\n' && w[k] != '{' {
        assert IsFormChar(w[k]);
      }
    }
    FormSlices(line, pre, w, post);
    FormNoNewline(line, pre, w, post);
    FormNoBrace(line, pre, w, post);
  }

  /** The template's pieces sit where the shape puts them. */
  lemma FormSlices(line: string, pre: string, w: string, post: string)
    requires line == pre + (FormOpen + (w + (FormClose + post)))
    ensures var q := |pre| + |FormOpen|; var c := q + |w|;
      && OccursAt(line, FormOpen, |pre|) && OccursAt(line, FormClose, c)
      && line[q..c] == w
      && line[|pre| + 1] == '{' && line[|pre| + 2] == 'f'
  {
    var q := |pre| + |FormOpen|;
    var c := q + |w|;
    assert line[|pre|..] == FormOpen + (w + (FormClose + post));
    assert line[|pre|..q] == FormOpen;
    assert line[q..] == w + (FormClose + post);
    assert line[c..] == FormClose + post;
    assert line[c..c + |FormClose|] == FormClose;
    assert line[|pre| + 1] == FormOpen[1];
    assert line[|pre| + 2] == FormOpen[2];
  }

  /** No newline up to the end of the template. */
  lemma FormNoNewline(line: string, pre: string, w: string, post: string)
    requires '\n' !in pre && '\n' !in w
    requires line == pre + (FormOpen + (w + (FormClose + post)))
    ensures forall k :: 0 <= k < |pre| + |FormOpen| + |w| + |FormClose| ==> line[k] != '\n'
  {
    var head := pre + (FormOpen + (w + FormClose));
    assert line == head + post by {
      ConcatAssoc(w, FormClose, post);
      ConcatAssoc(FormOpen, w + FormClose, post);
      ConcatAssoc(pre, FormOpen + (w + FormClose), post);
    }
    CharAbsentBefore(line, head, post, '\n');
  }

  /** No `{` after the template's first two characters. */
  lemma FormNoBrace(line: string, pre: string, w: string, post: string)
    requires '{' !in w && '{' !in post
    requires line == pre + (FormOpen + (w + (FormClose + post)))
    ensures forall k :: |pre| + 2 <= k < |line| ==> line[k] != '{'
  {
    var rest := w + (FormClose + post);
    var tail := "forma-a|ca|" + rest;
    assert line == (pre + "{{") + tail by {
      assert FormOpen == "{{" + "forma-a|ca|";
      ConcatAssoc("{{", "forma-a|ca|", rest);
      ConcatAssoc(pre, "{{", tail);
    }
    CharAbsentAfter(line, pre + "{{", tail, '{');
  }


  lemma WordEndIs(s: string, i: nat, e: nat)
    requires i <= e < |s| && !IsFormChar(s[e])
    requires forall k :: i <= k < e ==> IsFormChar(s[k])
    ensures WordEnd(s, i) == e
    decreases e - i
  {
    if i < e {
      WordEndIs(s, i + 1, e);
    }
  }

  lemma NoFormAfter(line: string, p: nat, c: nat, j: int)
    requires p < j < |line| && p + 2 < |line|
    requires forall k :: p + 2 <= k < |line| ==> line[k] != '{'
    requires line[p + 2] == 'f'
    ensures !FormAt(line, j)
  {
    if j + |FormOpen| <= |line| {
      if j == p + 1 {
        assert line[j..j + |FormOpen|][1] != FormOpen[1];
      } else {
        assert line[j..j + |FormOpen|][0] != FormOpen[0];
      }
    }
  }

  lemma LastFormInIs(s: string, lo: nat, hi: nat, p: nat)
    requires lo <= p < hi <= |s| && FormAt(s, p)
    requires forall j :: p < j < hi ==> !FormAt(s, j)
    ensures LastFormIn(s, lo, hi) == p
    decreases hi - lo
  {
  }

  /** No `{{f` starts inside `s`, even one cut off at its end. */
  predicate NoFormStart(s: string) {
    forall k :: 0 <= k < |s| && s[k] == '{' ==> k + 2 < |s| && s[k + 2] != 'f'
  }

  /** The second alternative-form test: a Spanish `forma-a|es` template is
      not a Catalan one, so nothing is captured; templates before it whose
      name does not start with `f` do not match either. */
  lemma OtherLanguageForm(line: string, pre: string, w: string, post: string)
    requires NoFormStart(pre) && '{' !in w && '{' !in post
    requires line == pre + (OtherFormOpen + (w + (FormClose + post)))
    ensures AlternativeForm(line) == []
  {
    forall p | 0 <= p
      ensures !FormAt(line, p)
    {
      OtherLanguageNotAt(line, pre, w, post, p);
    }
    NoFormNoAlternative(line, 0);
  }

  const OtherFormOpen := "{{forma-a|es|"

  lemma OtherLanguageNotAt(line: string, pre: string, w: string, post: string, p: int)
    requires NoFormStart(pre) && '{' !in w && '{' !in post
    requires line == pre + (OtherFormOpen + (w + (FormClose + post)))
    ensures !OccursAt(line, FormOpen, p)
  {
    var m := OtherFormOpen;
    var rest := w + (FormClose + post);
    if 0 <= p && p + |FormOpen| <= |line| {
      var t := line[p..p + |FormOpen|];
      if p < |pre| {
        assert line[p] == pre[p];
        if pre[p] == '{' {
          assert line[p + 2] == pre[p + 2];
          assert t[2] != FormOpen[2];
        } else {
          assert t[0] != FormOpen[0];
        }
      } else if p == |pre| {
        assert line[p + 10] == m[10];
        assert t[10] != FormOpen[10];
      } else if p == |pre| + 1 {
        assert line[p + 1] == m[2];
        assert t[1] != FormOpen[1];
      } else if p < |pre| + |m| {
        assert line[p] == m[p - |pre|];
        assert t[0] != FormOpen[0];
      } else {
        assert line[p] == rest[p - |pre| - |m|];
        NotInConcat('{', FormClose, post);
        NotInConcat('{', w, FormClose + post);
        assert t[0] != FormOpen[0];
      }
    }
  }

  // ---------------------------------------------------------------------
  // `_is_there_text`: `re.search("[a-zA-Z]", s)`
  // ---------------------------------------------------------------------

  predicate IsAsciiLetter(c: char) {
    ('a' <= c <= 'z') || ('A' <= c <= 'Z')
  }

  /** `_is_there_text`, as the truth of its match. */
  function HasText(s: string): (b: bool)
    ensures b <==> exists k :: 0 <= k < |s| && IsAsciiLetter(s[k])
  {
    if s == [] then false
    else if IsAsciiLetter(s[0]) then true
    else
      var b := HasText(s[1..]);
      assert b <==> exists k :: 0 <= k < |s| - 1 && IsAsciiLetter(s[1..][k]);
      assert (exists k :: 0 <= k < |s| && IsAsciiLetter(s[k])) ==> b by {
        if exists k :: 0 <= k < |s| && IsAsciiLetter(s[k]) {
          var k :| 0 <= k < |s| && IsAsciiLetter(s[k]);
          assert s[1..][k - 1] == s[k];
        }
      }
      b
  }

  // ---------------------------------------------------------------------
  // The section heading: `re.search("===[ ]*Verb[ ]*===", text)`
  // ---------------------------------------------------------------------

  const HeadingMark := "==="
  const VerbWord := "Verb"

  /** The end of the run of spaces from `i`. */
  function SpacesEnd(s: string, i: nat): (e: nat)
    requires i <= |s|
    ensures i <= e <= |s| && (e == |s| || s[e] != ' ')
    ensures forall k :: i <= k < e ==> s[k] == ' '
    decreases |s| - i
  {
    if i == |s| || s[i] != ' ' then i else SpacesEnd(s, i + 1)
  }

  /** Only spaces in `s[lo..hi]`: a `[ ]*` of the pattern. */
  predicate Spaces(s: string, lo: nat, hi: nat)
    requires lo <= hi <= |s|
  {
    forall k :: lo <= k < hi ==> s[k] == ' '
  }

  /** `===[ ]*Verb[ ]*===` from `i`, with `Verb` at `a` and the closing `===`
      at `b`. */
  predicate HeadingShape(s: string, i: nat, a: nat, b: nat) {
    i + |HeadingMark| <= a && a + |VerbWord| <= b && b + |HeadingMark| <= |s|
    && OccursAt(s, HeadingMark, i) && Spaces(s, i + |HeadingMark|, a)
    && OccursAt(s, VerbWord, a) && Spaces(s, a + |VerbWord|, b)
    && OccursAt(s, HeadingMark, b)
  }

  /** The end of a heading match starting at `i`, if one starts there. The
      pattern has a single way to match from a given start: each `[ ]*` is
      followed by a character that is not a space. */
  function HeadingAt(s: string, i: nat): (r: Option<nat>)
    requires i <= |s|
    ensures r.Some? ==> OccursAt(s, HeadingMark, i) && i + 10 <= r.value <= |s| && OccursAt(s, HeadingMark, r.value - 3)
    ensures r.Some? ==> exists a: nat, b: nat :: HeadingShape(s, i, a, b) && r.value == b + |HeadingMark|
  {
    if !OccursAt(s, HeadingMark, i) then None
    else
      var a := SpacesEnd(s, i + |HeadingMark|);
      if !OccursAt(s, VerbWord, a) then None
      else
        var b := SpacesEnd(s, a + |VerbWord|);
        if !OccursAt(s, HeadingMark, b) then None
        else
          assert HeadingShape(s, i, a, b);
          Some(b + |HeadingMark|)
  }

  /** Every `===[ ]*Verb[ ]*===` starting at `i` is the one `HeadingAt` finds. */
  lemma HeadingShapeMatches(s: string, i: nat, a: nat, b: nat)
    requires HeadingShape(s, i, a, b)
    ensures HeadingAt(s, i) == Some(b + |HeadingMark|)
  {
    assert SpacesEnd(s, i + |HeadingMark|) == a by {
      OccursChars(s, VerbWord, a);
      SpacesEndAt(s, i + |HeadingMark|, a);
    }
    assert SpacesEnd(s, a + |VerbWord|) == b by {
      OccursChars(s, HeadingMark, b);
      SpacesEndAt(s, a + |VerbWord|, b);
    }
    HeadingAtEnds(s, i, a, b);
  }

  /** One unfolding of `HeadingAt` once both runs of spaces are known. */
  lemma HeadingAtEnds(s: string, i: nat, a: nat, b: nat)
    requires i + |HeadingMark| <= |s| && OccursAt(s, HeadingMark, i)
    requires SpacesEnd(s, i + |HeadingMark|) == a && OccursAt(s, VerbWord, a)
    requires SpacesEnd(s, a + |VerbWord|) == b && OccursAt(s, HeadingMark, b)
    ensures HeadingAt(s, i) == Some(b + |HeadingMark|)
  {
  }

  /** A run of spaces ended by another character ends where `SpacesEnd` says. */
  lemma {:induction false} SpacesEndAt(s: string, j: nat, e: nat)
    requires j <= e < |s| && Spaces(s, j, e) && s[e] != ' '
    ensures SpacesEnd(s, j) == e
    decreases e - j
  {
    if j < e {
      SpacesEndAt(s, j + 1, e);
    }
  }

  /** No heading starts in `s[i..j]`. */
  predicate NoHeadingBefore(s: string, i: nat, j: nat)
    requires i <= j <= |s|
  {
    forall k :: i <= k < j ==> HeadingAt(s, k).None?
  }

  /** `match.end()` of the leftmost heading at or after `i`. */
  function FindHeading(s: string, i: nat): (r: Option<nat>)
    requires i <= |s|
    ensures r.Some? ==> exists j :: i <= j <= |s| && HeadingAt(s, j) == r && NoHeadingBefore(s, i, j)
    ensures r.None? <==> NoHeadingBefore(s, i, |s|) && HeadingAt(s, |s|).None?
    decreases |s| - i
  {
    if HeadingAt(s, i).Some? then
      assert NoHeadingBefore(s, i, i);
      HeadingAt(s, i)
    else if i == |s| then None
    else
      var r := FindHeading(s, i + 1);
      assert forall j :: i + 1 <= j <= |s| && NoHeadingBefore(s, i + 1, j) ==> NoHeadingBefore(s, i, j);
      r
  }
}
