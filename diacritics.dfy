/** extractor/diacritics.py: the words that take a diacritic accent under
    the IEC rules, and the check whether a word, or one of several words
    separated by "/", is one of them. The lines of
    replace_diacritics_iec.txt are given as a parameter; finding and reading
    the file is left out. */
module Diacritics {
  import opened Strings
  import opened Wrappers

  const Comment: char := '#'
  const Assignment: char := '='
  const TwoWordsSeparator: char := '/'

  /** What one line of the file contributes: an `IndexError` for a line that
      is empty once stripped (`line[0]`), nothing for a comment, a
      `ValueError` unless the line has exactly one "=" (unpacking the split
      into two names), and otherwise the text before the "=". */
  function LineDiacritic(line: string): (r: Result<Option<string>>)
    ensures r == Err(IndexError) <==> Strip(line) == []
    ensures r == Ok(None) <==> Strip(line) != [] && Strip(line)[0] == Comment
    ensures r == Err(ValueError) <==>
              Strip(line) != [] && Strip(line)[0] != Comment && CountChar(Strip(line), Assignment) != 1
    ensures r.Ok? && r.value.Some? ==>
              Assignment !in r.value.value &&
              exists rest :: Strip(line) == r.value.value + [Assignment] + rest && Assignment !in rest
  {
    var s := Strip(line);
    if |s| == 0 then Err(IndexError)
    else if s[0] == Comment then Ok(None)
    else
      var parts := Split(s, Assignment);
      if |parts| != 2 then Err(ValueError)
      else
        JoinSplit(s, Assignment);
        assert parts[1..] == [parts[1]];
        Ok(Some(parts[0]))
  }

  /** What each line of the file contributes, in order. */
  function LineEntries(lines: seq<string>): (r: seq<Result<Option<string>>>)
    ensures |r| == |lines| && forall k :: 0 <= k < |lines| ==> r[k] == LineDiacritic(lines[k])
  {
    seq(|lines|, k requires 0 <= k < |lines| => LineDiacritic(lines[k]))
  }

  /** The set the line loop builds from the contributions of the first lines,
      or the exception of the first line that raises. */
  function Collect(entries: seq<Result<Option<string>>>): Result<set<string>>
  {
    if entries == [] then Ok({})
    else
      match Collect(entries[..|entries| - 1])
      case Err(e) => Err(e)
      case Ok(front) =>
        match entries[|entries| - 1]
        case Err(e) => Err(e)
        case Ok(None) => Ok(front)
        case Ok(Some(src)) => Ok(front + {src})
  }

  /** The set `load_diacritics` builds from the file, or the exception of
      its first line that raises. */
  function DiacriticsOf(lines: seq<string>): Result<set<string>> {
    Collect(LineEntries(lines))
  }

  /** Loading succeeds exactly when no line raises. */
  lemma {:induction false} CollectOk(entries: seq<Result<Option<string>>>)
    ensures Collect(entries).Ok? <==> forall k :: 0 <= k < |entries| ==> entries[k].Ok?
    decreases |entries|
  {
    if entries != [] {
      var front := entries[..|entries| - 1];
      CollectOk(front);
      assert forall k :: 0 <= k < |front| ==> front[k] == entries[k];
    }
  }

  /** A successful load holds exactly the sources of the non-comment lines. */
  lemma {:induction false} CollectContents(entries: seq<Result<Option<string>>>, x: string)
    requires Collect(entries).Ok?
    ensures x in Collect(entries).value <==> exists k :: 0 <= k < |entries| && entries[k] == Ok(Some(x))
    decreases |entries|
  {
    if entries != [] {
      var front := entries[..|entries| - 1];
      CollectContents(front, x);
      if exists k :: 0 <= k < |entries| && entries[k] == Ok(Some(x)) {
        var k :| 0 <= k < |entries| && entries[k] == Ok(Some(x));
        if k < |front| {
          assert front[k] == entries[k];
        }
      }
      if x in Collect(front).value {
        var k :| 0 <= k < |front| && front[k] == Ok(Some(x));
        assert front[k] == entries[k];
      }
    }
  }

  /** A failed load reports the exception of the first line that raises. */
  lemma {:induction false} CollectErr(entries: seq<Result<Option<string>>>)
    requires Collect(entries).Err?
    ensures exists k :: 0 <= k < |entries| && entries[k] == Err(Collect(entries).error) &&
                        forall j :: 0 <= j < k ==> entries[j].Ok?
    decreases |entries|
  {
    var front := entries[..|entries| - 1];
    assert forall k :: 0 <= k < |front| ==> front[k] == entries[k];
    if Collect(front).Err? {
      CollectErr(front);
    } else {
      CollectOk(front);
    }
  }

  /** One more line after a prefix that loaded. */
  lemma CollectStep(entries: seq<Result<Option<string>>>, i: nat)
    requires i < |entries| && Collect(entries[..i]).Ok?
    ensures Collect(entries[..i + 1]) ==
              match entries[i]
              case Err(e) => Err(e)
              case Ok(None) => Collect(entries[..i])
              case Ok(Some(src)) => Ok(Collect(entries[..i]).value + {src})
  {
    assert entries[..i + 1][..i] == entries[..i];
  }

  /** Once a prefix of the lines fails, the whole file fails the same way. */
  lemma {:induction false} PrefixErr(entries: seq<Result<Option<string>>>, n: nat)
    requires n <= |entries| && Collect(entries[..n]).Err?
    ensures Collect(entries) == Collect(entries[..n])
    decreases |entries| - n
  {
    if n < |entries| {
      assert entries[..n + 1][..n] == entries[..n];
      PrefixErr(entries, n + 1);
    } else {
      assert entries[..n] == entries;
    }
  }

  /** The whole file in the terms of `load_diacritics`: it loads exactly when
      no line raises, the set then holds exactly the sources of the
      non-comment lines, and otherwise the first line that raises decides
      the exception. */
  lemma LoadedDiacritics(lines: seq<string>, x: string)
    ensures DiacriticsOf(lines).Ok? <==> forall k :: 0 <= k < |lines| ==> LineDiacritic(lines[k]).Ok?
    ensures DiacriticsOf(lines).Ok? ==>
              (x in DiacriticsOf(lines).value <==> exists k :: 0 <= k < |lines| && LineDiacritic(lines[k]) == Ok(Some(x)))
    ensures DiacriticsOf(lines).Err? ==>
              exists k :: 0 <= k < |lines| && LineDiacritic(lines[k]) == Err(DiacriticsOf(lines).error) &&
                          forall j :: 0 <= j < k ==> LineDiacritic(lines[j]).Ok?
  {
    var entries := LineEntries(lines);
    CollectOk(entries);
    if Collect(entries).Ok? {
      CollectContents(entries, x);
    } else {
      CollectErr(entries);
    }
  }

  /** `any` over the stripped words: whether one of them is in `diacritics`. */
  function AnyDiacritic(words: seq<string>, diacritics: set<string>): (r: bool)
    ensures r <==> exists k :: 0 <= k < |words| && Strip(words[k]) in diacritics
  {
    if words == [] then false
    else if Strip(words[0]) in diacritics then true
    else
      var r := AnyDiacritic(words[1..], diacritics);
      assert forall k :: 1 <= k < |words| ==> words[k] == words[1..][k - 1];
      r
  }

  /** The words `has_word_diacritic` looks at: the "/"-separated pieces, or
      the word itself when it has no "/". */
  function WordsOf(word: string): seq<string> {
    if TwoWordsSeparator in word then Split(word, TwoWordsSeparator) else [word]
  }

  /** The branch on "/" only saves a split: splitting a word without "/"
      gives the word itself. */
  lemma WordsOfIsSplit(word: string)
    ensures WordsOf(word) == Split(word, TwoWordsSeparator)
  {
    if TwoWordsSeparator !in word {
      SplitNoSep(word, TwoWordsSeparator);
    }
  }

  class Diacritics {
    var diacritics: set<string>

    /** `__init__`: no diacritic words yet. */
    constructor()
      ensures diacritics == {}
      ensures forall word :: !HasWordDiacritic(word)
    {
      diacritics := {};
    }

    /** The line loop of `load_diacritics` over the lines of the file. The
        set is replaced only when every line was read; an exception leaves
        the old set. */
    method LoadDiacritics(lines: seq<string>) returns (outcome: Outcome)
      modifies this
      ensures DiacriticsOf(lines).Ok? ==> outcome == Pass && diacritics == DiacriticsOf(lines).value
      ensures DiacriticsOf(lines).Err? ==>
                outcome == Fail(DiacriticsOf(lines).error) && diacritics == old(diacritics)
    {
      ghost var entries := LineEntries(lines);
      var found: set<string> := {};
      for i := 0 to |lines|
        invariant Collect(entries[..i]) == Ok(found)
        invariant diacritics == old(diacritics)
      {
        var entry := LineDiacritic(lines[i]);
        assert entries[i] == entry;
        CollectStep(entries, i);
        if entry.Err? {
          PrefixErr(entries, i + 1);
          return Fail(entry.error);
        }
        if entry.value.Some? {
          found := found + {entry.value.value};
        }
      }
      assert entries[..|lines|] == entries;
      diacritics := found;
      outcome := Pass;
    }

    /** `has_word_diacritic`: whether the stripped word, or one of its
        stripped "/"-separated pieces, is a diacritic word. */
    function HasWordDiacritic(word: string): (r: bool)
      reads this
      ensures TwoWordsSeparator !in word ==> (r <==> Strip(word) in diacritics)
      ensures TwoWordsSeparator in word ==>
                (r <==> exists k :: 0 <= k < |Split(word, TwoWordsSeparator)| &&
                                    Strip(Split(word, TwoWordsSeparator)[k]) in diacritics)
    {
      var words := WordsOf(word);
      assert TwoWordsSeparator in word ==> words == Split(word, TwoWordsSeparator);
      AnyDiacritic(words, diacritics)
    }
  }
}
