/** extractor/exclusionsfile.py: the lemmas to exclude from the dictionary,
    read from a file of one lemma per line with '#' comments. The file's
    lines are given as a parameter; reading them is left out. */
module ExclusionsFile {
  import opened Strings

  const Comment: char := '#'

  /** A line of the file as the loop sees it: lower-cased, then stripped. */
  function Normalized(line: string): string {
    Strip(Lower(line))
  }

  /** Whether a normalized line is kept: it is not empty and is not a comment. */
  predicate IsLemma(lem: string) {
    |lem| > 0 && lem[0] != Comment
  }

  /** The set the loop of `_process_exclusions` builds from `lines`, one line
      at a time. */
  function Gathered(lines: seq<string>): set<string>
  {
    if lines == [] then {}
    else
      var lem := Normalized(lines[|lines| - 1]);
      var front := Gathered(lines[..|lines| - 1]);
      if IsLemma(lem) then front + {lem} else front
  }

  /** The set holds exactly the normalized lines that are neither empty nor
      comments: every kept lemma comes from a line, and every such line's
      lemma is kept. */
  lemma {:induction false} GatheredIff(lines: seq<string>, x: string)
    ensures x in Gathered(lines) <==>
              exists k :: 0 <= k < |lines| && IsLemma(Normalized(lines[k])) && x == Normalized(lines[k])
    decreases |lines|
  {
    if lines != [] {
      var front := lines[..|lines| - 1];
      GatheredIff(front, x);
      if x in Gathered(lines) && x !in Gathered(front) {
        assert IsLemma(Normalized(lines[|lines| - 1])) && x == Normalized(lines[|lines| - 1]);
      }
      if x !in Gathered(lines) {
        forall k | 0 <= k < |lines| && IsLemma(Normalized(lines[k]))
          ensures x != Normalized(lines[k])
        {
          if k < |lines| - 1 {
            assert lines[k] == front[k];
          }
        }
      } else if x in Gathered(front) {
        var k :| 0 <= k < |front| && IsLemma(Normalized(front[k])) && x == Normalized(front[k]);
        assert lines[k] == front[k];
      }
    }
  }

  /** A line whose lemma an earlier line already gave adds nothing: the
      duplicates collapse in the set. */
  lemma DuplicateAddsNothing(lines: seq<string>, k: nat, line: string)
    requires k < |lines| && Normalized(lines[k]) == Normalized(line)
    ensures Gathered(lines + [line]) == Gathered(lines)
  {
    GatheredSnoc(lines, line);
    var lem := Normalized(line);
    if IsLemma(lem) {
      assert lem in Gathered(lines) by {
        assert IsLemma(Normalized(lines[k])) && lem == Normalized(lines[k]);
        GatheredIff(lines, lem);
      }
      AddMember(Gathered(lines), lem);
    }
  }

  lemma AddMember(s: set<string>, x: string)
    requires x in s
    ensures s + {x} == s
  {
  }

  /** One more line of the file. */
  lemma GatheredSnoc(lines: seq<string>, line: string)
    ensures Gathered(lines + [line]) ==
              if IsLemma(Normalized(line)) then Gathered(lines) + {Normalized(line)} else Gathered(lines)
  {
    var all := lines + [line];
    assert all[..|all| - 1] == lines && all[|all| - 1] == line;
  }

  /** `_process_exclusions`: an empty path gives the empty set without any
      reading; otherwise each line of the file is lower-cased and stripped,
      empty lines and comments are skipped and the rest are collected. */
  method ProcessExclusions(exclusionFilePath: string, fileLines: seq<string>) returns (lemmas: set<string>)
    ensures |exclusionFilePath| == 0 ==> lemmas == {}
    ensures |exclusionFilePath| > 0 ==> lemmas == Gathered(fileLines)
  {
    lemmas := {};
    if |exclusionFilePath| > 0 {
      var excludeLemmas := fileLines;
      for i := 0 to |excludeLemmas|
        invariant lemmas == Gathered(excludeLemmas[..i])
      {
        assert excludeLemmas[..i + 1][..i] == excludeLemmas[..i];
        var lem := Strip(Lower(excludeLemmas[i]));
        if |lem| == 0 {
          continue;
        }
        if lem[0] == Comment {
          continue;
        }
        lemmas := lemmas + {lem};
      }
      assert excludeLemmas[..|excludeLemmas|] == excludeLemmas;
    }
  }

  class ExclusionsFile {
    var lemmas: set<string>

    /** `__init__`: the lemmas of the file at `exclusionFilePath`, whose lines
        are `fileLines`. */
    constructor(exclusionFilePath: string, fileLines: seq<string>)
      ensures |exclusionFilePath| == 0 ==> lemmas == {}
      ensures |exclusionFilePath| > 0 ==> lemmas == Gathered(fileLines)
    {
      var processed := ProcessExclusions(exclusionFilePath, fileLines);
      lemmas := processed;
    }

    /** `get_lemmas`: the stored set itself. */
    method GetLemmas() returns (r: set<string>)
      ensures r == lemmas
    {
      r := lemmas;
    }
  }
}
