/** indexer/index.py: the base of the Whoosh indices; what is modelled is the
    rule for which compound tenses the indices leave out. */
module Index {
  import opened Strings

  const Indicatiu := "Indicatiu"
  const Subjuntiu := "Subjuntiu"
  const NonPersonal := "Formes no personals"

  /** The tense names whose presence makes an indicative tense compound. */
  const IndicatiuCompound: seq<string> :=
    ["Perfet", "Plusquamperfet", "Passat perifràstic", "Passat anterior",
     "Passat anterior perifràstic", "Futur perfet", "Condicional perfet"]
  const SubjuntiuCompound: seq<string> := ["Perfet", "Plusquamperfet"]
  const NonPersonalCompound: seq<string> := ["Infinitiu compost", "Gerundi compost"]

  /** `any(t in tense for t in names)`: a case-sensitive substring test. */
  predicate AnyIn(names: seq<string>, tense: string) {
    exists k :: 0 <= k < |names| && Contains(tense, names[k])
  }

  /** `_verbs_to_ignore_in_autocomplete`: the compound tenses of the
      indicative, the subjunctive and the non-personal forms. */
  function VerbsToIgnoreInAutocomplete(mode: string, tense: string): (r: bool)
    ensures r ==> mode == Indicatiu || mode == Subjuntiu || mode == NonPersonal
    ensures mode == Indicatiu ==>
              (r <==> Contains(tense, "Perfet") || Contains(tense, "Plusquamperfet") ||
                      Contains(tense, "Passat perifràstic") || Contains(tense, "Passat anterior") ||
                      Contains(tense, "Passat anterior perifràstic") || Contains(tense, "Futur perfet") ||
                      Contains(tense, "Condicional perfet"))
    ensures mode == Subjuntiu ==> (r <==> Contains(tense, "Perfet") || Contains(tense, "Plusquamperfet"))
    ensures mode == NonPersonal ==>
              (r <==> Contains(tense, "Infinitiu compost") || Contains(tense, "Gerundi compost"))
  {
    AnyInSeven(IndicatiuCompound, tense);
    AnyInTwo(SubjuntiuCompound, tense);
    AnyInTwo(NonPersonalCompound, tense);
    if mode == Indicatiu && AnyIn(IndicatiuCompound, tense) then true
    else if mode == Subjuntiu && AnyIn(SubjuntiuCompound, tense) then true
    else mode == NonPersonal && AnyIn(NonPersonalCompound, tense)
  }

  lemma AnyInTwo(names: seq<string>, tense: string)
    requires |names| == 2
    ensures AnyIn(names, tense) <==> Contains(tense, names[0]) || Contains(tense, names[1])
  {
  }

  lemma AnyInSeven(names: seq<string>, tense: string)
    requires |names| == 7
    ensures AnyIn(names, tense) <==>
              Contains(tense, names[0]) || Contains(tense, names[1]) || Contains(tense, names[2]) ||
              Contains(tense, names[3]) || Contains(tense, names[4]) || Contains(tense, names[5]) ||
              Contains(tense, names[6])
  {
  }

  /** A text lacking the first character of a pattern does not contain it. */
  lemma NotContainedWithoutHead(s: string, p: string)
    requires p != [] && p[0] !in s
    ensures !Contains(s, p)
  {
    NoOccurrenceWithoutHead(s, p, 0, |s|);
    forall j | 0 <= j
      ensures !OccursAt(s, p, j)
    {
      if j < |s| {
        assert s[j] != p[0];
      }
    }
    FindNone(s, p, 0);
  }

  /** The simple infinitive is indexed in every mode. */
  lemma InfinitiveIndexed(mode: string)
    ensures !VerbsToIgnoreInAutocomplete(mode, "Infinitiu")
  {
    NotContainedWithoutHead("Infinitiu", "Perfet");
    NotContainedWithoutHead("Infinitiu", "Passat perifràstic");
    NotContainedWithoutHead("Infinitiu", "Plusquamperfet");
    NotContainedWithoutHead("Infinitiu", "Passat anterior");
    NotContainedWithoutHead("Infinitiu", "Passat anterior perifràstic");
    NotContainedWithoutHead("Infinitiu", "Futur perfet");
    NotContainedWithoutHead("Infinitiu", "Condicional perfet");
    NotContainedWithoutHead("Infinitiu", "Gerundi compost");
    assert |"Infinitiu compost"| > |"Infinitiu"|;
  }

  /** The simple gerund is indexed in every mode. */
  lemma GerundIndexed(mode: string)
    ensures !VerbsToIgnoreInAutocomplete(mode, "Gerundi")
  {
    NotContainedWithoutHead("Gerundi", "Perfet");
    NotContainedWithoutHead("Gerundi", "Passat perifràstic");
    NotContainedWithoutHead("Gerundi", "Plusquamperfet");
    NotContainedWithoutHead("Gerundi", "Passat anterior");
    NotContainedWithoutHead("Gerundi", "Passat anterior perifràstic");
    NotContainedWithoutHead("Gerundi", "Futur perfet");
    NotContainedWithoutHead("Gerundi", "Condicional perfet");
    NotContainedWithoutHead("Gerundi", "Infinitiu compost");
    assert |"Gerundi compost"| > |"Gerundi"|;
  }

  /** An occurrence of a longer pattern holds one of its prefix. */
  lemma ContainsPrefix(s: string, p: string, q: string)
    requires Contains(s, p + q)
    ensures Contains(s, p)
  {
    ContainsIff(s, p + q);
    var i :| OccursAt(s, p + q, i);
    assert s[i..i + |p|] == s[i..i + |p + q|][..|p|];
    assert OccursAt(s, p, i);
    ContainsIff(s, p);
  }

  /** "Passat anterior perifràstic" adds nothing to the indicative list:
      every tense containing it also contains "Passat anterior". */
  lemma PeriphrasticAnteriorRedundant(tense: string)
    requires Contains(tense, "Passat anterior perifràstic")
    ensures Contains(tense, "Passat anterior")
  {
    assert "Passat anterior perifràstic" == "Passat anterior" + " perifràstic";
    ContainsPrefix(tense, "Passat anterior", " perifràstic");
  }
}
