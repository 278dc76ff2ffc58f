/** extractor/reflexius.py: the set of Catalan reflexive verbs and the
    pronoun suffix attached to them. */
module Reflexius {
  import opened Strings
  import opened Wrappers
  import Definitions

  class Reflexius {
    /** The reflexive verbs, one stripped line of reflexius.txt each. */
    var reflexius: set<string>

    constructor()
      ensures reflexius == {}
    {
      reflexius := {};
    }

    /** `load_reflexius` over the lines of the file. */
    method LoadReflexius(fileLines: seq<string>)
      modifies this
      ensures reflexius == set s | s in fileLines :: Strip(s)
    {
      reflexius := set s | s in fileLines :: Strip(s);
    }

    /** `get_reflexiu`: a verb of the set gets "'s" after a final 'e' and
        "-se" otherwise; any other lemma is returned as it is. An empty
        verb in the set fails on `lemma[-1]`. */
    function GetReflexiu(verb: string): (r: Result<string>)
      reads this
      ensures verb !in reflexius ==> r == Ok(verb)
      ensures r.Err? <==> verb in reflexius && verb == []
      ensures r.Err? ==> r.error == IndexError
      ensures verb in reflexius && r.Ok? ==>
                verb <= r.value &&
                (r.value[|verb|..] == "'s" <==> verb[|verb| - 1] == 'e') &&
                (r.value[|verb|..] == "-se" <==> verb[|verb| - 1] != 'e')
    {
      if verb !in reflexius then Ok(verb)
      else if verb == [] then Err(IndexError)
      else if verb[|verb| - 1] == 'e' then Ok(verb + "'s")
      else Ok(verb + "-se")
    }
  }

  /** Round trip with `get_without_reflexive_pronoun`: removing the pronoun
      from the reflexive form of a non-empty verb of the set gives the verb
      back. */
  lemma PronounRoundTrip(verbs: Reflexius, verb: string)
    requires verb in verbs.reflexius && verb != []
    ensures verbs.GetReflexiu(verb).Ok?
    ensures Definitions.WithoutReflexivePronoun(verbs.GetReflexiu(verb).value) == verb
  {
    var w := verbs.GetReflexiu(verb).value;
    if verb[|verb| - 1] == 'e' {
      assert w[|w| - 2..] == Definitions.ShortPronoun;
    } else {
      assert w[|w| - 2..] != Definitions.ShortPronoun by {
        assert w[|w| - 2] == 's';
      }
      assert w[|w| - 3..] == Definitions.LongPronoun;
    }
  }
}
