// The list converter of `TextExtract` (definitions/textextract.py):
// `#` lines become `<ol><li>` items and `#:` lines `<dl><dd>` items,
// threaded through two flags that remember which lists are open.

module TextLists {
  import opened Strings

  const OlOpen := "<ol>"
  const OlClose := "</ol>"
  const ItemOpen := "<li>"
  const ItemClose := "</li>"
  const DlOpen := "<dl>"
  const DlClose := "</dl>"
  const DdOpen := "<dd>"
  const DdClose := "</dd>"
  /** The marker of a definition-list line. */
  const DefMark := "#:"

  /** A stripped line that is an ordered-list item: `#` followed by
      anything but `:`. */
  predicate IsOlItem(html: string) {
    |html| > 1 && html[0] == '#' && html[1] != ':'
  }

  /** A stripped line that is a definition-list item; `html[0:2] == "#:"`
      with `len(html) > 1`. */
  predicate IsDlItem(html: string) {
    StartsWith(html, DefMark)
  }

  /** The text of an ordered-list item. */
  function OlText(html: string): string
    requires |html| > 0
  {
    Strip(html[1..])
  }

  /** The text of a definition-list item. */
  function DlText(html: string): string
    requires |html| > 1
  {
    Strip(html[2..])
  }

  /** `_html_to_ol`: the converted line and the new `open_ol` flag. */
  function HtmlToOl(line: string, openOl: bool): (r: (string, bool))
    ensures r.1 == (IsOlItem(Strip(line)) || (openOl && IsDlItem(Strip(line))))
    ensures !IsOlItem(Strip(line)) && IsDlItem(Strip(line)) ==> r.0 == line
    ensures IsOlItem(Strip(line)) ==> r.0 != [] && r.0[0] == '<'
  {
    var html := Strip(line);
    if IsOlItem(html) then
      var text := OlText(html);
      OlItemHasText(html);
      if |text| == 0 then ("", false)
      else ((if !openOl then OlOpen else "") + ItemOpen + text + ItemClose, true)
    else if openOl && !StartsWith(html, DefMark) then
      (OlClose + line, false)
    else
      (line, openOl)
  }

  /** `_html_to_dl`: the converted line and the new `open_dl` flag; a line
      that is not an item always clears the flag. */
  function HtmlToDl(line: string, openDl: bool): (r: (string, bool))
    ensures r.1 == (IsDlItem(Strip(line)) && DlText(Strip(line)) != [])
    ensures !IsDlItem(Strip(line)) ==> r.0 == (if openDl then DlClose + line else line)
  {
    var html := Strip(line);
    if |html| > 1 && IsDlItem(html) then
      var text := DlText(html);
      if |text| == 0 then ("", false)
      else ((if !openDl then DlOpen else "") + DdOpen + text + DdClose, true)
    else if openDl then
      (DlClose + line, false)
    else
      (line, false)
  }

  /** `_convert_to_html`: the ordered-list step, then the definition-list
      step on its output. */
  function ConvertToHtml(line: string, openOl: bool, openDl: bool): (r: (string, bool, bool))
    ensures r.1 == (IsOlItem(Strip(line)) || (openOl && IsDlItem(Strip(line))))
    ensures r.2 == (IsDlItem(Strip(line)) && DlText(Strip(line)) != [])
  {
    var (o, ol) := HtmlToOl(line, openOl);
    DlFlagFromInput(line, openOl, o);
    var (d, dl) := HtmlToDl(o, openDl);
    (d, ol, dl)
  }

  /** The ordered-list branch that returns `""` cannot be taken: a stripped
      line of two or more characters ends in a non-space, so its tail after
      `#` strips to something non-empty. */
  lemma OlItemHasText(html: string)
    requires Strip(html) == html && IsOlItem(html)
    ensures OlText(html) != []
  {
    var tail := html[1..];
    assert tail[|tail| - 1] == html[|html| - 1];
    StripNonEmpty(tail, |tail| - 1);
  }

  /** The definition-list step sees a `#:` line exactly when the input was
      one: every other output of the ordered-list step starts with `<` or is
      the line itself. */
  lemma DlFlagFromInput(line: string, openOl: bool, o: string)
    requires o == HtmlToOl(line, openOl).0
    ensures IsDlItem(Strip(o)) == IsDlItem(Strip(line))
    ensures IsDlItem(Strip(o)) ==> Strip(o) == Strip(line)
  {
    var html := Strip(line);
    if IsOlItem(html) {
      StripKeepsHead(o);
      NotDlItem(Strip(o));
    } else if openOl && !StartsWith(html, DefMark) {
      StripKeepsHead(o);
      NotDlItem(Strip(o));
    }
  }

  lemma NotDlItem(h: string)
    requires h != [] && h[0] != '#'
    ensures !IsDlItem(h)
  {
    if |DefMark| <= |h| {
      assert h[..|DefMark|][0] != DefMark[0];
    }
  }

  /** An ordered-list item closes an open definition list and opens the
      ordered list when it is closed. */
  lemma ConvertOlItem(line: string, openOl: bool, openDl: bool)
    requires IsOlItem(Strip(line))
    ensures ConvertToHtml(line, openOl, openDl).0
         == (if openDl then DlClose else "") + ((if openOl then "" else OlOpen) + ItemOpen + OlText(Strip(line)) + ItemClose)
  {
    var t := OlText(Strip(line));
    OlItemHasText(Strip(line));
    var o := HtmlToOl(line, openOl).0;
    assert o == (if openOl then "" else OlOpen) + ItemOpen + t + ItemClose;
    StripKeepsHead(o);
    NotDlItem(Strip(o));
    assert ConvertToHtml(line, openOl, openDl).0 == HtmlToDl(o, openDl).0;
  }

  /** A definition-list item leaves the ordered list as it is and opens the
      definition list when it is closed; a bare `#:` gives the empty line. */
  lemma ConvertDlItem(line: string, openOl: bool, openDl: bool)
    requires IsDlItem(Strip(line))
    ensures var t := DlText(Strip(line));
      ConvertToHtml(line, openOl, openDl).0
      == if t == [] then [] else (if openDl then "" else DlOpen) + DdOpen + t + DdClose
  {
    DlFlagFromInput(line, openOl, HtmlToOl(line, openOl).0);
  }

  /** Any other line closes both open lists, the definition list outermost,
      and is otherwise kept as it is. */
  lemma ConvertOther(line: string, openOl: bool, openDl: bool)
    requires !IsOlItem(Strip(line)) && !IsDlItem(Strip(line))
    ensures ConvertToHtml(line, openOl, openDl).0
         == (if openDl then DlClose else "") + ((if openOl then OlClose else "") + line)
  {
    var o := HtmlToOl(line, openOl).0;
    assert o == (if openOl then OlClose else "") + line by {
      if !openOl {
        assert "" + line == line;
      }
    }
    DlFlagFromInput(line, openOl, o);
    assert ConvertToHtml(line, openOl, openDl).0 == HtmlToDl(o, openDl).0;
  }

  /** The converter run over consecutive lines, both flags starting closed
      as in `get_description`. */
  function ConvertLines(lines: seq<string>, openOl: bool, openDl: bool): (r: seq<string>)
    ensures |r| == |lines|
  {
    if lines == [] then []
    else
      var (h, ol, dl) := ConvertToHtml(lines[0], openOl, openDl);
      [h] + ConvertLines(lines[1..], ol, dl)
  }

  /** A blank-free `#` line: `#`, some whitespace, then the item text. */
  lemma ItemLine(line: string, sp: string, text: string)
    requires sp != [] && forall k :: 0 <= k < |sp| ==> IsSpace(sp[k])
    requires text != [] && !IsSpace(text[0]) && !IsSpace(text[|text| - 1])
    requires line == "#" + sp + text
    ensures Strip(line) == line && IsOlItem(line) && !IsDlItem(line) && OlText(line) == text
  {
    StripNoEdges(line);
    assert line[..|DefMark|][1] != DefMark[1];
    assert line[1..] == sp + text + [];
    StripAround(sp, text, []);
  }

  /** A blank-free `#:` line: `#:`, optional whitespace, then the text. */
  lemma DefinitionLine(line: string, sp: string, text: string)
    requires forall k :: 0 <= k < |sp| ==> IsSpace(sp[k])
    requires text != [] && !IsSpace(text[0]) && !IsSpace(text[|text| - 1])
    requires line == DefMark + sp + text
    ensures Strip(line) == line && IsDlItem(line) && !IsOlItem(line) && DlText(line) == text
  {
    StripNoEdges(line);
    assert line[..|DefMark|] == DefMark;
    assert line[2..] == sp + text + [];
    StripAround(sp, text, []);
  }

  /** A line that is neither kind of item, such as the verb heading. */
  lemma PlainLine(line: string)
    requires line == [] || (line[0] != '#' && !IsSpace(line[0]) && !IsSpace(line[|line| - 1]))
    ensures !IsOlItem(Strip(line)) && !IsDlItem(Strip(line))
  {
    StripNoEdges(line);
    if line != [] {
      NotDlItem(line);
    }
  }

  /** One step of `ConvertLines`. */
  lemma ConvertLinesCons(x: string, tail: seq<string>, openOl: bool, openDl: bool,
                         h: string, ol: bool, dl: bool, rest: seq<string>)
    requires ConvertToHtml(x, openOl, openDl) == (h, ol, dl)
    requires ConvertLines(tail, ol, dl) == rest
    ensures ConvertLines([x] + tail, openOl, openDl) == [h] + rest
  {
    assert ([x] + tail)[1..] == tail;
  }

  // The single steps of the two converter tests, each in its own small
  // context.

  lemma HeadingStep(w: string)
    requires PlainHeading(w)
    ensures ConvertToHtml(w, false, false) == (w, false, false)
  {
    PlainLine(w);
    ConvertOther(w, false, false);
    assert "" + ("" + w) == w;
  }

  lemma ClosingStep(last: string)
    requires last == []
    ensures ConvertToHtml(last, true, false) == (OlClose, false, false)
  {
    PlainLine(last);
    ConvertOther(last, true, false);
    assert "" + (OlClose + last) == OlClose;
  }

  lemma OpeningItemStep(x: string, t: string)
    requires OlLine(x, t)
    ensures ConvertToHtml(x, false, false) == (OlOpen + ItemOpen + t + ItemClose, true, false)
  {
    assert ConvertToHtml(x, false, false).0 == OlOpen + ItemOpen + t + ItemClose by {
      ConvertOlItem(x, false, false);
    }
  }

  lemma ItemStep(x: string, t: string)
    requires OlLine(x, t)
    ensures ConvertToHtml(x, true, false) == (ItemOpen + t + ItemClose, true, false)
  {
    assert ConvertToHtml(x, true, false).0 == ItemOpen + t + ItemClose by {
      ConvertOlItem(x, true, false);
      assert "" + ItemOpen == ItemOpen;
    }
  }

  lemma ItemAfterDefinitionStep(x: string, t: string)
    requires OlLine(x, t)
    ensures ConvertToHtml(x, true, true) == (DlClose + (ItemOpen + t + ItemClose), true, false)
  {
    assert ConvertToHtml(x, true, true).0 == DlClose + (ItemOpen + t + ItemClose) by {
      ConvertOlItem(x, true, true);
      assert "" + ItemOpen == ItemOpen;
    }
  }

  /** A line that strips to a `#` item whose text is `t`. */
  predicate OlLine(x: string, t: string) {
    IsOlItem(Strip(x)) && !IsDlItem(Strip(x)) && OlText(Strip(x)) == t
  }

  /** A line that strips to a `#:` item whose text is `q`. */
  predicate DlLine(x: string, q: string) {
    IsDlItem(Strip(x)) && DlText(Strip(x)) == q
  }

  lemma OpeningDefinitionStep(x: string, q: string)
    requires DlLine(x, q) && q != []
    ensures ConvertToHtml(x, true, false) == (DlOpen + DdOpen + q + DdClose, true, true)
  {
    assert ConvertToHtml(x, true, false).0 == DlOpen + DdOpen + q + DdClose by {
      ConvertDlItem(x, true, false);
    }
  }

  lemma DefinitionStep(x: string, q: string)
    requires DlLine(x, q) && q != []
    ensures ConvertToHtml(x, true, true) == (DdOpen + q + DdClose, true, true)
  {
    assert ConvertToHtml(x, true, true).0 == DdOpen + q + DdClose by {
      ConvertDlItem(x, true, true);
      assert "" + DdOpen == DdOpen;
    }
  }

  /** The first list of the converter tests: a heading, two `#` items and
      the empty line after the final newline give the heading, `<ol><li>…`,
      `<li>…` and the closing `</ol>`. */
  lemma SimpleNumberedList(lines: seq<string>, w: string, x1: string, s1: string, a: string,
                           x2: string, s2: string, b: string, last: string)
    requires PlainHeading(w)
    requires IsBlank(s1) && IsText(a) && x1 == "#" + s1 + a
    requires IsBlank(s2) && IsText(b) && x2 == "#" + s2 + b
    requires last == [] && lines == [w, x1, x2, last]
    ensures ConvertLines(lines, false, false)
         == [w, OlOpen + ItemOpen + a + ItemClose, ItemOpen + b + ItemClose, OlClose]
  {
    HeadingStep(w);
    assert OlLine(x1, a) by {
      ItemLine(x1, s1, a);
    }
    assert OlLine(x2, b) by {
      ItemLine(x2, s2, b);
    }
    OpeningItemStep(x1, a);
    ItemStep(x2, b);
    ClosingStep(last);
    SimpleNumberedListSteps(lines, w, x1, x2, last, OlOpen + ItemOpen + a + ItemClose, ItemOpen + b + ItemClose);
  }

  lemma SimpleNumberedListSteps(lines: seq<string>, w: string, x1: string, x2: string, last: string,
                                o1: string, o2: string)
    requires lines == [w, x1, x2, last]
    requires ConvertToHtml(w, false, false) == (w, false, false)
    requires ConvertToHtml(x1, false, false) == (o1, true, false)
    requires ConvertToHtml(x2, true, false) == (o2, true, false)
    requires ConvertToHtml(last, true, false) == (OlClose, false, false)
    ensures ConvertLines(lines, false, false) == [w, o1, o2, OlClose]
  {
    var e: seq<string> := [];
    assert ConvertLines(e, false, false) == e;
    ConvertLinesCons(last, e, true, false, OlClose, false, false, e);
    ConvertLinesCons(x2, [last] + e, true, false, o2, true, false, [OlClose] + e);
    ConvertLinesCons(x1, [x2] + ([last] + e), false, false, o1, true, false, [o2] + ([OlClose] + e));
    ConvertLinesCons(w, [x1] + ([x2] + ([last] + e)), false, false, w, false, false,
                     [o1] + ([o2] + ([OlClose] + e)));
    Display4(lines, w, x1, x2, last);
    Display4([w, o1, o2, OlClose], w, o1, o2, OlClose);
  }

  lemma Display4<T>(s: seq<T>, a: T, b: T, c: T, d: T)
    requires s == [a, b, c, d]
    ensures s == [a] + ([b] + ([c] + ([d] + [])))
  {
  }

  /** The second list of the converter tests: `#:` examples nested in a
      numbered list open `<dl>`, the next `#` item closes it with `</dl>`,
      and the empty last line closes the `<ol>`. */
  lemma NumberedListWithDefinitions(lines: seq<string>, w: string,
                                    x1: string, s1: string, a1: string,
                                    x2: string, s2: string, a2: string,
                                    x3: string, s3: string, q1: string,
                                    x4: string, s4: string, q2: string,
                                    x5: string, s5: string, a3: string, last: string)
    requires PlainHeading(w)
    requires IsBlank(s1) && IsText(a1) && x1 == "#" + s1 + a1
    requires IsBlank(s2) && IsText(a2) && x2 == "#" + s2 + a2
    requires AllBlank(s3) && IsText(q1) && x3 == DefMark + s3 + q1
    requires AllBlank(s4) && IsText(q2) && x4 == DefMark + s4 + q2
    requires IsBlank(s5) && IsText(a3) && x5 == "#" + s5 + a3
    requires last == [] && lines == [w, x1, x2, x3, x4, x5, last]
    ensures ConvertLines(lines, false, false)
         == [w, OlOpen + ItemOpen + a1 + ItemClose, ItemOpen + a2 + ItemClose,
             DlOpen + DdOpen + q1 + DdClose, DdOpen + q2 + DdClose,
             DlClose + (ItemOpen + a3 + ItemClose), OlClose]
  {
    HeadingStep(w);
    assert OlLine(x1, a1) by {
      ItemLine(x1, s1, a1);
    }
    assert OlLine(x2, a2) by {
      ItemLine(x2, s2, a2);
    }
    assert DlLine(x3, q1) by {
      DefinitionLine(x3, s3, q1);
    }
    assert DlLine(x4, q2) by {
      DefinitionLine(x4, s4, q2);
    }
    assert OlLine(x5, a3) by {
      ItemLine(x5, s5, a3);
    }
    OpeningItemStep(x1, a1);
    ItemStep(x2, a2);
    OpeningDefinitionStep(x3, q1);
    DefinitionStep(x4, q2);
    ItemAfterDefinitionStep(x5, a3);
    ClosingStep(last);
    DefinitionListSteps(lines, w, x1, x2, x3, x4, x5, last,
                        OlOpen + ItemOpen + a1 + ItemClose, ItemOpen + a2 + ItemClose,
                        DlOpen + DdOpen + q1 + DdClose, DdOpen + q2 + DdClose,
                        DlClose + (ItemOpen + a3 + ItemClose));
  }

  lemma DefinitionListSteps(lines: seq<string>, w: string, x1: string, x2: string, x3: string,
                            x4: string, x5: string, last: string,
                            o1: string, o2: string, o3: string, o4: string, o5: string)
    requires lines == [w, x1, x2, x3, x4, x5, last]
    requires ConvertToHtml(w, false, false) == (w, false, false)
    requires ConvertToHtml(x1, false, false) == (o1, true, false)
    requires ConvertToHtml(x2, true, false) == (o2, true, false)
    requires ConvertToHtml(x3, true, false) == (o3, true, true)
    requires ConvertToHtml(x4, true, true) == (o4, true, true)
    requires ConvertToHtml(x5, true, true) == (o5, true, false)
    requires ConvertToHtml(last, true, false) == (OlClose, false, false)
    ensures ConvertLines(lines, false, false) == [w, o1, o2, o3, o4, o5, OlClose]
  {
    var e: seq<string> := [];
    assert ConvertLines(e, false, false) == e;
    var i6, r6 := [last] + e, [OlClose] + e;
    ConvertLinesCons(last, e, true, false, OlClose, false, false, e);
    var i5, r5 := [x5] + i6, [o5] + r6;
    ConvertLinesCons(x5, i6, true, true, o5, true, false, r6);
    var i4, r4 := [x4] + i5, [o4] + r5;
    ConvertLinesCons(x4, i5, true, true, o4, true, true, r5);
    var i3, r3 := [x3] + i4, [o3] + r4;
    ConvertLinesCons(x3, i4, true, false, o3, true, true, r4);
    var i2, r2 := [x2] + i3, [o2] + r3;
    ConvertLinesCons(x2, i3, true, false, o2, true, false, r3);
    var i1, r1 := [x1] + i2, [o1] + r2;
    ConvertLinesCons(x1, i2, false, false, o1, true, false, r2);
    ConvertLinesCons(w, i1, false, false, w, false, false, r1);
    Display7(lines, w, x1, x2, x3, x4, x5, last);
    Display7([w, o1, o2, o3, o4, o5, OlClose], w, o1, o2, o3, o4, o5, OlClose);
  }

  lemma Display7<T>(s: seq<T>, a: T, b: T, c: T, d: T, e: T, f: T, g: T)
    requires s == [a, b, c, d, e, f, g]
    ensures s == [a] + ([b] + ([c] + ([d] + ([e] + ([f] + ([g] + []))))))
  {
  }

  /** Non-empty whitespace. */
  predicate IsBlank(s: string) {
    s != [] && AllBlank(s)
  }

  predicate AllBlank(s: string) {
    forall k :: 0 <= k < |s| ==> IsSpace(s[k])
  }

  /** Non-empty text with no whitespace at either end. */
  predicate IsText(t: string) {
    t != [] && !IsSpace(t[0]) && !IsSpace(t[|t| - 1])
  }

  /** A heading line such as `abaltir`: no `#`, nothing to strip. */
  predicate PlainHeading(w: string) {
    w == [] || (w[0] != '#' && IsText(w))
  }
}
