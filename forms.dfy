/** extractor/forms.py: a conjugated form and a tense holding the forms of
    its six persons, with their text renderings. */
module Forms {
  import opened Strings
  import opened Wrappers

  /** A conjugated form. `diacritic` stands for the optional attribute of the
      Python object: `None` when the attribute was never set. */
  datatype Form = Form(word: string, variant: string, diacritic: Option<bool>)

  /** `Form.__init__`: the prefix, if any, goes in front of the word, and the
      diacritic attribute exists only when it is true. */
  function NewForm(word: string, variant: string, prefix: Option<string>, diacritic: bool): (f: Form)
    ensures prefix.None? ==> f.word == word
    ensures prefix.Some? ==> f.word == prefix.value + word
    ensures f.variant == variant
    ensures f.diacritic.Some? <==> diacritic
    ensures f.diacritic.Some? ==> f.diacritic.value
  {
    var p := if prefix.None? then "" else prefix.value;
    Form(p + word, variant, if diacritic then Some(diacritic) else None)
  }

  /** The word given to the constructor ends the form's word, after exactly
      the prefix. */
  lemma NewFormEndsInWord(word: string, variant: string, prefix: Option<string>, diacritic: bool)
    ensures EndsWith(NewForm(word, variant, prefix, diacritic).word, word)
    ensures var w := NewForm(word, variant, prefix, diacritic).word;
            w[..|w| - |word|] == (if prefix.None? then "" else prefix.value)
  {
  }

  /** `Form.__str__`: "{word} - {variant} ". */
  function FormText(f: Form): string {
    f.word + " - " + f.variant + " "
  }

  /** `"".join(str(p) for p in forms)`. */
  function FormsText(forms: seq<Form>): string {
    if forms == [] then "" else FormText(forms[0]) + FormsText(forms[1..])
  }

  /** A form with no line break in its word or variant renders on one line. */
  predicate OneLine(f: Form) {
    '\n' !in f.word && '\n' !in f.variant
  }

  lemma {:induction false} FormsTextOneLine(forms: seq<Form>)
    requires forall k :: 0 <= k < |forms| ==> OneLine(forms[k])
    ensures '\n' !in FormsText(forms)
    decreases |forms|
  {
    if forms != [] {
      FormsTextOneLine(forms[1..]);
      var f := forms[0];
      assert OneLine(f);
      NotInConcat('\n', f.word, " - ");
      NotInConcat('\n', f.word + " - ", f.variant);
      NotInConcat('\n', f.word + " - " + f.variant, " ");
      NotInConcat('\n', FormText(f), FormsText(forms[1..]));
    }
  }

  /** Each string of `ls` followed by a line break. */
  function Lines(ls: seq<string>): string {
    if ls == [] then "" else ls[0] + "\n" + Lines(ls[1..])
  }

  /** Splitting the rendering on line breaks gives back the lines, and an
      empty text after the last break. */
  lemma {:induction false} SplitLines(ls: seq<string>)
    requires forall k :: 0 <= k < |ls| ==> '\n' !in ls[k]
    ensures Split(Lines(ls), '\n') == ls + [""]
    decreases |ls|
  {
    if ls != [] {
      SplitLines(ls[1..]);
      SplitPrefix(ls[0], Lines(ls[1..]), '\n');
      assert [ls[0]] + (ls[1..] + [""]) == ls + [""];
    }
  }

  /** The first line of a tense's rendering. */
  function Header(tense: string, mode: string): string {
    "---* " + tense + " (" + mode + ")"
  }

  class Tense {
    var mode: string
    var tense: string
    var postag: string
    var singular1: seq<Form>
    var singular2: seq<Form>
    var singular3: seq<Form>
    var plural1: seq<Form>
    var plural2: seq<Form>
    var plural3: seq<Form>

    /** `Tense.__init__`: the six person lists start empty. */
    constructor(mode: string, tense: string, postag: string)
      ensures this.mode == mode && this.tense == tense && this.postag == postag
      ensures singular1 == [] && singular2 == [] && singular3 == []
      ensures plural1 == [] && plural2 == [] && plural3 == []
    {
      this.mode := mode;
      this.tense := tense;
      this.postag := postag;
      singular1, singular2, singular3 := [], [], [];
      plural1, plural2, plural3 := [], [], [];
    }

    /** The forms of the six persons, in rendering order. */
    function Persons(): seq<seq<Form>>
      reads this
    {
      [singular1, singular2, singular3, plural1, plural2, plural3]
    }

    /** The rendering: the header line, then one line per person. */
    function Text(): string
      reads this
    {
      Lines([Header(tense, mode),
             FormsText(singular1), FormsText(singular2), FormsText(singular3),
             FormsText(plural1), FormsText(plural2), FormsText(plural3)])
    }

    /** `Tense.__str__`, which builds the text with `+=`. */
    method ToString() returns (s: string)
      ensures s == Text()
    {
      s := "---";
      s := s + "* " + tense + " (" + mode + ")\n";
      HeaderLine(tense, mode, s);
      s := s + FormsText(singular1) + "\n";
      s := s + FormsText(singular2) + "\n";
      s := s + FormsText(singular3) + "\n";
      s := s + FormsText(plural1) + "\n";
      s := s + FormsText(plural2) + "\n";
      s := s + FormsText(plural3) + "\n";
      Lines7(Header(tense, mode), FormsText(singular1), FormsText(singular2), FormsText(singular3),
             FormsText(plural1), FormsText(plural2), FormsText(plural3));
    }
  }

  /** Appending one more line to the rendering. */
  lemma {:induction false} LinesSnoc(ls: seq<string>, x: string)
    ensures Lines(ls + [x]) == Lines(ls) + x + "\n"
    decreases |ls|
  {
    if ls == [] {
      assert [] + [x] == [x];
    } else {
      assert (ls + [x])[1..] == ls[1..] + [x];
      LinesSnoc(ls[1..], x);
      ConcatAssoc(ls[0] + "\n", Lines(ls[1..]), x);
      ConcatAssoc(ls[0] + "\n", Lines(ls[1..]) + x, "\n");
      ConcatAssoc(ls[0] + "\n" + Lines(ls[1..]), x, "\n");
    }
  }

  /** The header line as `__str__` builds it. */
  lemma HeaderLine(tense: string, mode: string, s: string)
    requires s == "---" + "* " + tense + " (" + mode + ")\n"
    ensures s == Lines([Header(tense, mode)])
  {
    assert "---" + "* " == "---* ";
  }

  /** The rendering of seven lines, one line appended at a time. */
  lemma Lines7(h: string, a: string, b: string, c: string, d: string, e: string, f: string)
    ensures Lines([h, a, b, c, d, e, f]) ==
              Lines([h]) + a + "\n" + b + "\n" + c + "\n" + d + "\n" + e + "\n" + f + "\n"
  {
    LinesSnoc([h], a);
    assert [h] + [a] == [h, a];
    LinesSnoc([h, a], b);
    assert [h, a] + [b] == [h, a, b];
    LinesSnoc([h, a, b], c);
    assert [h, a, b] + [c] == [h, a, b, c];
    LinesSnoc([h, a, b, c], d);
    assert [h, a, b, c] + [d] == [h, a, b, c, d];
    LinesSnoc([h, a, b, c, d], e);
    assert [h, a, b, c, d] + [e] == [h, a, b, c, d, e];
    LinesSnoc([h, a, b, c, d, e], f);
    assert [h, a, b, c, d, e] + [f] == [h, a, b, c, d, e, f];
  }

  /** When no word, variant, tense or mode holds a line break, the rendering
      is exactly eight lines apart: the header, one line per person with
      that person's forms, and the empty text after the final break. */
  lemma TenseLines(t: Tense)
    requires '\n' !in t.tense && '\n' !in t.mode
    requires forall p :: p in t.Persons() ==> forall k :: 0 <= k < |p| ==> OneLine(p[k])
    ensures Split(t.Text(), '\n') ==
              [Header(t.tense, t.mode),
               FormsText(t.singular1), FormsText(t.singular2), FormsText(t.singular3),
               FormsText(t.plural1), FormsText(t.plural2), FormsText(t.plural3), ""]
  {
    var ps := t.Persons();
    HeaderOneLine(t.tense, t.mode);
    PersonOneLine(ps, 0);
    PersonOneLine(ps, 1);
    PersonOneLine(ps, 2);
    PersonOneLine(ps, 3);
    PersonOneLine(ps, 4);
    PersonOneLine(ps, 5);
    SplitLines7(Header(t.tense, t.mode),
                FormsText(t.singular1), FormsText(t.singular2), FormsText(t.singular3),
                FormsText(t.plural1), FormsText(t.plural2), FormsText(t.plural3));
  }

  /** One person's forms render on one line. */
  lemma PersonOneLine(ps: seq<seq<Form>>, i: nat)
    requires i < |ps| && forall p :: p in ps ==> forall k :: 0 <= k < |p| ==> OneLine(p[k])
    ensures '\n' !in FormsText(ps[i])
  {
    assert ps[i] in ps;
    FormsTextOneLine(ps[i]);
  }

  /** `SplitLines` for the seven lines of a tense. */
  lemma SplitLines7(h: string, a: string, b: string, c: string, d: string, e: string, f: string)
    requires '\n' !in h && '\n' !in a && '\n' !in b && '\n' !in c
    requires '\n' !in d && '\n' !in e && '\n' !in f
    ensures Split(Lines([h, a, b, c, d, e, f]), '\n') == [h, a, b, c, d, e, f, ""]
  {
    var ls := [h, a, b, c, d, e, f];
    SplitLines(ls);
    assert ls + [""] == [h, a, b, c, d, e, f, ""];
  }

  /** The header holds no line break of its own. */
  lemma HeaderOneLine(tense: string, mode: string)
    requires '\n' !in tense && '\n' !in mode
    ensures '\n' !in Header(tense, mode)
  {
    NotInConcat('\n', "---* ", tense);
    NotInConcat('\n', "---* " + tense, " (");
    NotInConcat('\n', "---* " + tense + " (", mode);
    NotInConcat('\n', "---* " + tense + " (" + mode, ")");
  }

  /** A tense with no forms renders as its header and six empty lines. */
  lemma EmptyTenseText(t: Tense)
    requires t.singular1 == [] && t.singular2 == [] && t.singular3 == []
    requires t.plural1 == [] && t.plural2 == [] && t.plural3 == []
    ensures t.Text() == Header(t.tense, t.mode) + "\n\n\n\n\n\n\n"
  {
    Lines7(Header(t.tense, t.mode), "", "", "", "", "", "");
    assert Lines([Header(t.tense, t.mode)]) == Header(t.tense, t.mode) + "\n";
  }
}
