/** extractor/dictionaryfile.py: the dictionary of "form lemma postag"
    lines, edited in place before the conjugations are extracted from it. */
module DictionaryFile {
  import opened Strings
  import opened Wrappers

  /** `\w` of the token pattern, for the Latin letters a Catalan dictionary
      holds: ASCII letters, digits and '_', the Latin-1 letters and the
      Latin Extended-A block (which holds the 'ŀ' of "l·l"). */
  predicate IsWordChar(c: char) {
    || 'a' <= c <= 'z' || 'A' <= c <= 'Z' || '0' <= c <= '9' || c == '_'
    || c == 'ª' || c == 'µ' || c == 'º'
    || ('À' <= c <= 'ÿ' && c != '×' && c != '÷')
    || ('Ā' <= c <= 'ſ')
  }

  /** The characters the pattern `[^(\w|·|\-)]` leaves alone. */
  predicate IsTokenChar(c: char) {
    IsWordChar(c) || c == '(' || c == ')' || c == '|' || c == '·' || c == '-'
  }

  /** The `re.sub` of `_get_form_lemma_postag_from_line`: every other
      character becomes a blank. */
  function Sanitize(line: string): (r: string)
    ensures |r| == |line|
    ensures forall k :: 0 <= k < |line| ==> r[k] == if IsTokenChar(line[k]) then line[k] else ' '
  {
    seq(|line|, k requires 0 <= k < |line| => if IsTokenChar(line[k]) then line[k] else ' ')
  }

  /** The length of the run of non-blanks `s` starts with. */
  function WordLen(s: string): (n: nat)
    ensures n <= |s|
    ensures forall k :: 0 <= k < n ==> s[k] != ' '
    ensures n == |s| || s[n] == ' '
  {
    if s == [] || s[0] == ' ' then 0 else 1 + WordLen(s[1..])
  }

  /** `split()` of a sanitized line, where the blank is the only whitespace
      left: the maximal runs of non-blanks. */
  function Words(s: string): (ws: seq<string>)
    ensures forall k :: 0 <= k < |ws| ==> ws[k] != [] && ' ' !in ws[k]
    decreases |s|
  {
    if s == [] then []
    else if s[0] == ' ' then Words(s[1..])
    else
      var n := WordLen(s);
      [s[..n]] + Words(s[n..])
  }

  /** The form, lemma and postag of a line: its first three tokens; a line
      with fewer tokens fails on `wordList[2]`. */
  function Parse(line: string): (r: Result<(string, string, string)>)
    ensures r.Err? ==> r.error == IndexError
    ensures r.Ok? ==> r.value.0 != [] && r.value.1 != [] && r.value.2 != []
  {
    var ws := Words(Sanitize(line));
    if |ws| < 3 then Err(IndexError) else Ok((ws[0], ws[1], ws[2]))
  }

  predicate IsToken(w: string) {
    w != [] && forall k :: 0 <= k < |w| ==> IsTokenChar(w[k])
  }

  lemma WordLenOfToken(w: string, rest: string)
    requires w != [] && ' ' !in w
    requires rest == [] || rest[0] == ' '
    ensures WordLen(w + rest) == |w|
  {
    var s := w + rest;
    forall k | 0 <= k < |w|
      ensures s[k] != ' '
    {
      assert s[k] == w[k] && w[k] in w;
    }
    assert rest != [] ==> s[|w|] == rest[0];
  }

  /** A token followed by a blank is split off as one word. */
  lemma WordsCons(w: string, rest: string)
    requires w != [] && ' ' !in w
    ensures Words(w + " " + rest) == [w] + Words(rest)
  {
    var s := w + " " + rest;
    assert s[0] == w[0] && w[0] in w;
    WordLenOfToken(w, " " + rest);
    assert s == w + (" " + rest);
    assert s[..|w|] == w;
    assert s[|w|..] == " " + rest;
    assert (" " + rest)[1..] == rest;
  }

  lemma SanitizeToken(w: string)
    requires IsToken(w)
    ensures Sanitize(w) == w
  {
  }

  lemma SanitizeConcat(a: string, b: string)
    ensures Sanitize(a + b) == Sanitize(a) + Sanitize(b)
  {
    var s := Sanitize(a + b);
    assert forall k :: 0 <= k < |a| ==> s[k] == Sanitize(a)[k];
    assert forall k :: |a| <= k < |a + b| ==> s[k] == Sanitize(b)[k - |a|];
  }

  /** A word of a sanitized line is a token. */
  lemma {:induction false} WordsAreTokens(s: string)
    requires forall k :: 0 <= k < |s| ==> s[k] == ' ' || IsTokenChar(s[k])
    ensures forall k :: 0 <= k < |Words(s)| ==> IsToken(Words(s)[k])
    decreases |s|
  {
    if s != [] {
      if s[0] == ' ' {
        WordsAreTokens(s[1..]);
      } else {
        var n := WordLen(s);
        WordsAreTokens(s[n..]);
        var ws := Words(s);
        forall k | 0 <= k < |ws| ensures IsToken(ws[k]) {
          if k == 0 {
            assert ws[0] == s[..n];
          } else {
            assert ws[k] == Words(s[n..])[k - 1];
          }
        }
      }
    }
  }

  lemma {:induction false} WordsBlank(s: string)
    requires forall k :: 0 <= k < |s| ==> s[k] == ' '
    ensures Words(s) == []
    decreases |s|
  {
    if s != [] {
      WordsBlank(s[1..]);
    }
  }

  /** Round trip: a line written as "form lemma postag", followed by any
      characters the pattern blanks out (the newline `readlines` keeps),
      parses back into its three tokens. */
  lemma ParseLine(form: string, lem: string, postag: string, end: string, line: string)
    requires IsToken(form) && IsToken(lem) && IsToken(postag)
    requires forall k :: 0 <= k < |end| ==> !IsTokenChar(end[k])
    requires line == form + " " + lem + " " + postag + end
    ensures Parse(line) == Ok((form, lem, postag))
  {
    SanitizeLine(form, lem, postag, end, line);
    WordsLine(form, lem, postag, Sanitize(end));
  }

  lemma SanitizeLine(form: string, lem: string, postag: string, end: string, line: string)
    requires IsToken(form) && IsToken(lem) && IsToken(postag)
    requires line == form + " " + lem + " " + postag + end
    ensures Sanitize(line) == form + " " + lem + " " + postag + Sanitize(end)
  {
    SanitizeToken(form);
    SanitizeToken(lem);
    SanitizeToken(postag);
    SanitizeConcat(form + " " + lem + " " + postag, end);
    SanitizeConcat(form + " " + lem + " ", postag);
    SanitizeConcat(form + " " + lem, " ");
    SanitizeConcat(form + " ", lem);
    SanitizeConcat(form, " ");
  }

  lemma NoBlank(w: string)
    requires IsToken(w)
    ensures ' ' !in w
  {
    assert forall k :: 0 <= k < |w| ==> w[k] != ' ';
  }

  lemma WordsLine(form: string, lem: string, postag: string, blank: string)
    requires IsToken(form) && IsToken(lem) && IsToken(postag)
    requires forall k :: 0 <= k < |blank| ==> blank[k] == ' '
    ensures Words(form + " " + lem + " " + postag + blank) == [form, lem, postag]
  {
    NoBlank(form);
    NoBlank(lem);
    NoBlank(postag);
    var s := form + " " + lem + " " + postag + blank;
    assert s == form + " " + (lem + " " + (postag + blank));
    WordsCons(form, lem + " " + (postag + blank));
    WordsCons(lem, postag + blank);
    WordsLast(postag, blank);
  }

  lemma WordsLast(w: string, blank: string)
    requires w != [] && ' ' !in w
    requires forall k :: 0 <= k < |blank| ==> blank[k] == ' '
    ensures Words(w + blank) == [w]
  {
    if blank == [] {
      assert w[0] in w;
      WordLenOfToken(w, []);
      assert w + blank == w;
      assert w[..|w|] == w && w[|w|..] == [];
    } else {
      assert w + blank == w + " " + blank[1..];
      WordsCons(w, blank[1..]);
      WordsBlank(blank[1..]);
    }
  }

  /** The token fields of a parsed line. */
  lemma ParsedTokens(line: string)
    requires Parse(line).Ok?
    ensures IsToken(Parse(line).value.0) && IsToken(Parse(line).value.1) && IsToken(Parse(line).value.2)
  {
    WordsAreTokens(Sanitize(line));
  }

  /** Every line has a form, a lemma and a postag. */
  predicate AllParse(lines: seq<string>) {
    forall k :: 0 <= k < |lines| ==> Parse(lines[k]).Ok?
  }

  /** The postags `_valencia` retags: masculine singular participles and
      main-verb infinitives. */
  const ParticipleTag := "VMP00SM0"
  const MainInfinitiveTag := "VMN00000"

  /** The postags of the three infinitives: main, auxiliary and semi-auxiliary. */
  const InfinitiveTags: set<string> := {"VMN00000", "VAN00000", "VSN00000"}

  /** The lemmas of the infinitive lines, in line order; the first line
      without three tokens makes the whole call fail. */
  function InfinitiveLemmas(lines: seq<string>): (r: Result<seq<string>>)
    ensures r.Err? ==> r.error == IndexError
  {
    if lines == [] then Ok([])
    else
      var earlier := InfinitiveLemmas(lines[..|lines| - 1]);
      var parsed := Parse(lines[|lines| - 1]);
      if earlier.Err? then earlier
      else if parsed.Err? then Err(parsed.error)
      else if parsed.value.2 in InfinitiveTags then Ok(earlier.value + [parsed.value.1])
      else earlier
  }

  /** The lemmas are found exactly when every line parses. */
  lemma {:induction false} InfinitiveLemmasOk(lines: seq<string>)
    ensures InfinitiveLemmas(lines).Ok? <==> AllParse(lines)
    decreases |lines|
  {
    if lines != [] {
      var front := lines[..|lines| - 1];
      InfinitiveLemmasOk(front);
      if AllParse(lines) {
        assert forall k :: 0 <= k < |front| ==> front[k] == lines[k];
      }
      if AllParse(front) && Parse(lines[|lines| - 1]).Ok? {
        assert forall k :: 0 <= k < |front| ==> front[k] == lines[k];
      }
    }
  }

  /** Each lemma found is the lemma of an infinitive line. */
  lemma {:induction false} InfinitiveLemmasSound(lines: seq<string>)
    requires InfinitiveLemmas(lines).Ok?
    ensures forall x | x in InfinitiveLemmas(lines).value ::
              exists k :: 0 <= k < |lines| && Parse(lines[k]).Ok? &&
                Parse(lines[k]).value.1 == x && Parse(lines[k]).value.2 in InfinitiveTags
    decreases |lines|
  {
    if lines != [] {
      var front := lines[..|lines| - 1];
      InfinitiveLemmasSound(front);
      forall x | x in InfinitiveLemmas(lines).value
        ensures exists k :: 0 <= k < |lines| && Parse(lines[k]).Ok? &&
                  Parse(lines[k]).value.1 == x && Parse(lines[k]).value.2 in InfinitiveTags
      {
        if x in InfinitiveLemmas(front).value {
          var k :| 0 <= k < |front| && Parse(front[k]).Ok? &&
                   Parse(front[k]).value.1 == x && Parse(front[k]).value.2 in InfinitiveTags;
          assert lines[k] == front[k];
        }
      }
    }
  }

  /** An infinitive line contributes its lemma at the end. */
  lemma InfinitiveLineAppends(lines: seq<string>, line: string)
    requires InfinitiveLemmas(lines).Ok? && Parse(line).Ok? && Parse(line).value.2 in InfinitiveTags
    ensures InfinitiveLemmas(lines + [line]) == Ok(InfinitiveLemmas(lines).value + [Parse(line).value.1])
  {
    assert (lines + [line])[..|lines|] == lines;
  }

  lemma {:induction false} InfinitiveLemmasErr(lines: seq<string>, i: nat)
    requires i <= |lines| && InfinitiveLemmas(lines[..i]).Err?
    ensures InfinitiveLemmas(lines).Err?
    decreases |lines| - i
  {
    if i < |lines| {
      assert lines[..i + 1][..i] == lines[..i];
      InfinitiveLemmasErr(lines, i + 1);
    } else {
      assert lines[..i] == lines;
    }
  }

  /** A line whose lower-cased lemma is in the exclusion list. */
  predicate Excluded(line: string, lemmas: seq<string>) {
    Parse(line).Ok? && Lower(Parse(line).value.1) in lemmas
  }

  /** The lines that are not excluded, in their order. */
  function Kept(lines: seq<string>, lemmas: seq<string>): (r: seq<string>)
    ensures |r| <= |lines|
  {
    if lines == [] then []
    else (if Excluded(lines[0], lemmas) then [] else [lines[0]]) + Kept(lines[1..], lemmas)
  }

  /** Python's `list.remove(x)`: the first element equal to `x` is taken out. */
  function RemoveFirst(s: seq<string>, x: string): (r: seq<string>)
    requires x in s
    ensures |r| == |s| - 1
    ensures multiset(r) == multiset(s) - multiset{x}
  {
    if s[0] == x then
      assert s == [s[0]] + s[1..];
      s[1..]
    else
      assert s == [s[0]] + s[1..];
      [s[0]] + RemoveFirst(s[1..], x)
  }

  lemma {:induction false} KeptConcat(a: seq<string>, b: seq<string>, lemmas: seq<string>)
    ensures Kept(a + b, lemmas) == Kept(a, lemmas) + Kept(b, lemmas)
    decreases |a|
  {
    if a != [] {
      assert (a + b)[0] == a[0];
      assert (a + b)[1..] == a[1..] + b;
      KeptConcat(a[1..], b, lemmas);
    } else {
      assert a + b == b;
    }
  }

  /** Removing an excluded line does not change what is kept. */
  lemma {:induction false} KeptRemoveFirst(s: seq<string>, x: string, lemmas: seq<string>)
    requires x in s && Excluded(x, lemmas)
    ensures Kept(RemoveFirst(s, x), lemmas) == Kept(s, lemmas)
    decreases |s|
  {
    if s[0] != x {
      KeptRemoveFirst(s[1..], x, lemmas);
      assert ([s[0]] + RemoveFirst(s[1..], x))[1..] == RemoveFirst(s[1..], x);
    }
  }

  lemma {:induction false} RemoveFirstConcat(a: seq<string>, b: seq<string>, x: string)
    requires x in a
    ensures RemoveFirst(a + b, x) == RemoveFirst(a, x) + b
    decreases |a|
  {
    assert (a + b)[0] == a[0];
    if a[0] == x {
      assert (a + b)[1..] == a[1..] + b;
    } else {
      assert (a + b)[1..] == a[1..] + b;
      RemoveFirstConcat(a[1..], b, x);
    }
  }

  /** A kept line moves from the unvisited lines to the visited ones. */
  lemma KeptMoves(front: seq<string>, back: seq<string>, line: string, lemmas: seq<string>)
    requires front != [] && front[|front| - 1] == line && !Excluded(line, lemmas)
    ensures Kept(front[..|front| - 1], lemmas) + ([line] + back) == Kept(front, lemmas) + back
    ensures front[..|front| - 1] + ([line] + back) == front + back
    ensures multiset(front[..|front| - 1]) + multiset{line} == multiset(front)
  {
    var init := front[..|front| - 1];
    assert front == init + [line];
    assert Kept(front, lemmas) == Kept(init, lemmas) + [line] by {
      KeptConcat(init, [line], lemmas);
      assert [line][1..] == [];
    }
    SnocAssoc(Kept(init, lemmas), line, back);
    SnocAssoc(init, line, back);
  }

  lemma SnocAssoc(a: seq<string>, x: string, b: seq<string>)
    ensures a + ([x] + b) == (a + [x]) + b
  {
  }

  /** The forms of a lemma carrying one postag: (line index, form) pairs. */
  type Groups = map<string, seq<(int, string)>>

  /** `lemmas.setdefault(lemma, []).append(item)`. */
  function AddForm(g: Groups, lem: string, item: (int, string)): Groups {
    g[lem := (if lem in g then g[lem] else []) + [item]]
  }

  /** The result of `_load_specific_lemmas_with_pos(tag)`. */
  function LemmasWithPos(lines: seq<string>, tag: string): (r: Result<Groups>)
    ensures r.Err? ==> r.error == IndexError
  {
    if lines == [] then Ok(map[])
    else
      var earlier := LemmasWithPos(lines[..|lines| - 1], tag);
      var parsed := Parse(lines[|lines| - 1]);
      if earlier.Err? then earlier
      else if parsed.Err? then Err(parsed.error)
      else if parsed.value.2 == tag then Ok(AddForm(earlier.value, parsed.value.1, (|lines| - 1, parsed.value.0)))
      else earlier
  }

  lemma {:induction false} LemmasWithPosErr(lines: seq<string>, tag: string, i: nat)
    requires i <= |lines| && LemmasWithPos(lines[..i], tag).Err?
    ensures LemmasWithPos(lines, tag).Err?
    decreases |lines| - i
  {
    if i < |lines| {
      assert lines[..i + 1][..i] == lines[..i];
      LemmasWithPosErr(lines, tag, i + 1);
    } else {
      assert lines[..i] == lines;
    }
  }

  /** The groups are found exactly when every line parses. */
  lemma {:induction false} LemmasWithPosOk(lines: seq<string>, tag: string)
    ensures LemmasWithPos(lines, tag).Ok? <==> AllParse(lines)
    decreases |lines|
  {
    if lines != [] {
      var front := lines[..|lines| - 1];
      LemmasWithPosOk(front, tag);
      if AllParse(lines) {
        assert forall k :: 0 <= k < |front| ==> front[k] == lines[k];
      }
      if AllParse(front) && Parse(lines[|lines| - 1]).Ok? {
        assert forall k :: 0 <= k < |front| ==> front[k] == lines[k];
      }
    }
  }

  /** The recorded pair `item` names a line of `lem` with the tag. */
  predicate Records(lines: seq<string>, tag: string, lem: string, item: (int, string)) {
    0 <= item.0 < |lines| && Parse(lines[item.0]) == Ok((item.1, lem, tag))
  }

  /** Every recorded pair names a line with that form, that lemma and the
      tag, and the indices inside a group ascend. */
  predicate GroupsOf(g: Groups, lines: seq<string>, tag: string) {
    forall lem | lem in g ::
      && (forall j :: 0 <= j < |g[lem]| ==> Records(lines, tag, lem, g[lem][j]))
      && (forall j1, j2 :: 0 <= j1 < j2 < |g[lem]| ==> g[lem][j1].0 < g[lem][j2].0)
  }

  lemma GroupsExtend(g: Groups, lines: seq<string>, tag: string)
    requires lines != [] && GroupsOf(g, lines[..|lines| - 1], tag)
    ensures GroupsOf(g, lines, tag)
    ensures forall lem, j | lem in g && 0 <= j < |g[lem]| :: g[lem][j].0 < |lines| - 1
  {
    var front := lines[..|lines| - 1];
    forall lem, j | lem in g && 0 <= j < |g[lem]|
      ensures Records(lines, tag, lem, g[lem][j]) && g[lem][j].0 < |lines| - 1
    {
      assert Records(front, tag, lem, g[lem][j]);
      assert front[g[lem][j].0] == lines[g[lem][j].0];
    }
  }

  lemma GroupsAdd(g: Groups, lines: seq<string>, tag: string, lem: string, form: string)
    requires lines != [] && GroupsOf(g, lines, tag)
    requires forall l, j | l in g && 0 <= j < |g[l]| :: g[l][j].0 < |lines| - 1
    requires Parse(lines[|lines| - 1]) == Ok((form, lem, tag))
    ensures GroupsOf(AddForm(g, lem, (|lines| - 1, form)), lines, tag)
  {
    var g' := AddForm(g, lem, (|lines| - 1, form));
    var earlier := if lem in g then g[lem] else [];
    assert g'[lem] == earlier + [(|lines| - 1, form)];
    assert forall j :: 0 <= j < |earlier| ==> g'[lem][j] == earlier[j];
  }

  /** Every recorded pair names a line of its lemma with the tag, in
      ascending line order inside each group. */
  lemma {:induction false} GroupsSound(lines: seq<string>, tag: string)
    requires LemmasWithPos(lines, tag).Ok?
    ensures GroupsOf(LemmasWithPos(lines, tag).value, lines, tag)
    decreases |lines|
  {
    if lines != [] {
      var front := lines[..|lines| - 1];
      GroupsSound(front, tag);
      var g := LemmasWithPos(front, tag).value;
      GroupsExtend(g, lines, tag);
      var parsed := Parse(lines[|lines| - 1]);
      if parsed.value.2 == tag {
        GroupsAdd(g, lines, tag, parsed.value.1, parsed.value.0);
      }
    }
  }

  /** Every line with the tag is recorded in the group of its lemma. */
  lemma {:induction false} GroupsComplete(lines: seq<string>, tag: string, i: nat)
    requires LemmasWithPos(lines, tag).Ok?
    requires i < |lines| && Parse(lines[i]).Ok? && Parse(lines[i]).value.2 == tag
    ensures Parse(lines[i]).value.1 in LemmasWithPos(lines, tag).value
    ensures (i, Parse(lines[i]).value.0) in LemmasWithPos(lines, tag).value[Parse(lines[i]).value.1]
    decreases |lines|
  {
    var front := lines[..|lines| - 1];
    if i < |lines| - 1 {
      assert front[i] == lines[i];
      GroupsComplete(front, tag, i);
    }
  }

  /** Some form of the group ends in `suffix`. */
  predicate AnyEnding(forms: seq<(int, string)>, suffix: string) {
    exists j :: 0 <= j < |forms| && EndsWith(forms[j].1, suffix)
  }

  /** `next((i for i, form in forms if form.endswith(suffix)), None)`. */
  function FirstEnding(forms: seq<(int, string)>, suffix: string): (r: Option<int>)
    ensures r.None? <==> !AnyEnding(forms, suffix)
    ensures r.Some? ==> exists j :: 0 <= j < |forms| && EndsWith(forms[j].1, suffix) && forms[j].0 == r.value &&
                          forall j' :: 0 <= j' < j ==> !EndsWith(forms[j'].1, suffix)
  {
    if forms == [] then None
    else if EndsWith(forms[0].1, suffix) then Some(forms[0].0)
    else
      var r := FirstEnding(forms[1..], suffix);
      assert forall j :: 0 < j < |forms| ==> forms[j] == forms[1..][j - 1];
      r
  }

  /** The line `_valencia_form` retags in one group, as written: the
      `and index_va` test takes an index of 0 for a missing one. */
  function RetagIndexAsWritten(forms: seq<(int, string)>, central: string, valencia: string): Option<int> {
    var indexVa := FirstEnding(forms, valencia);
    if AnyEnding(forms, central) && indexVa.Some? && indexVa.value != 0 then indexVa else None
  }

  /** The line `_valencia_form` is meant to retag in one group: the first
      form ending in `valencia`, when some form ends in `central`. */
  function RetagIndex(forms: seq<(int, string)>, central: string, valencia: string): (r: Option<int>)
    ensures r.Some? <==> AnyEnding(forms, central) && AnyEnding(forms, valencia)
    ensures r.Some? ==> exists j :: 0 <= j < |forms| && EndsWith(forms[j].1, valencia) && forms[j].0 == r.value
  {
    var indexVa := FirstEnding(forms, valencia);
    if AnyEnding(forms, central) && indexVa.Some? then indexVa else None
  }

  /** The two differ exactly on a group whose Valencian form is on the
      first line of the dictionary. */
  lemma AsWrittenSkipsFirstLine(forms: seq<(int, string)>, central: string, valencia: string)
    ensures RetagIndexAsWritten(forms, central, valencia) ==
              if RetagIndex(forms, central, valencia) == Some(0) then None
              else RetagIndex(forms, central, valencia)
  {
  }

  /** "conéixer" on line 0 next to "conèixer" on line 1: the Valencian form
      is left untagged as written. */
  lemma FirstLineLeftUntagged()
    ensures RetagIndexAsWritten([(0, "conéixer"), (1, "conèixer")], "èixer", "éixer") == None
    ensures RetagIndex([(0, "conéixer"), (1, "conèixer")], "èixer", "éixer") == Some(0)
  {
    var forms := [(0, "conéixer"), (1, "conèixer")];
    assert EndsWith(forms[0].1, "éixer");
    assert EndsWith(forms[1].1, "èixer");
  }

  /** The lines retagged for the groups of `keys`. */
  function RetagSet(groups: Groups, keys: set<string>, central: string, valencia: string): set<int> {
    set key | key in keys && key in groups && |groups[key]| > 1 && RetagIndex(groups[key], central, valencia).Some?
      :: RetagIndex(groups[key], central, valencia).value
  }

  /** The lines `_valencia_form(tag, central, valencia)` retags. */
  function Retagged(lines: seq<string>, tag: string, central: string, valencia: string): set<int>
    requires LemmasWithPos(lines, tag).Ok?
  {
    var groups := LemmasWithPos(lines, tag).value;
    RetagSet(groups, groups.Keys, central, valencia)
  }

  /** The lines after one `_valencia_form` pass. */
  function ValenciaLines(lines: seq<string>, tag: string, central: string, valencia: string): (r: seq<string>)
    requires LemmasWithPos(lines, tag).Ok?
    ensures |r| == |lines|
  {
    seq(|lines|, k requires 0 <= k < |lines| =>
      if k in Retagged(lines, tag, central, valencia) then ReplaceAll(lines[k], tag, ValTag(tag)) else lines[k])
  }

  /** The line a group retags belongs to that group's lemma. */
  lemma RetagBelongs(groups: Groups, lines: seq<string>, tag: string, key: string, central: string, valencia: string)
    requires GroupsOf(groups, lines, tag) && key in groups
    requires RetagIndex(groups[key], central, valencia).Some?
    ensures var k := RetagIndex(groups[key], central, valencia).value;
            0 <= k < |lines| && Parse(lines[k]).Ok? && Parse(lines[k]).value.1 == key &&
            Parse(lines[k]).value.2 == tag && EndsWith(Parse(lines[k]).value.0, valencia)
  {
    var j :| 0 <= j < |groups[key]| && EndsWith(groups[key][j].1, valencia) &&
             groups[key][j].0 == RetagIndex(groups[key], central, valencia).value;
    assert Records(lines, tag, key, groups[key][j]);
  }

  /** A retagged line is a form with the tag that ends in `valencia`, and
      its lemma has another line with the tag whose form ends in `central`. */
  lemma RetaggedLine(lines: seq<string>, tag: string, central: string, valencia: string, k: int)
    requires LemmasWithPos(lines, tag).Ok? && k in Retagged(lines, tag, central, valencia)
    ensures 0 <= k < |lines| && Parse(lines[k]).Ok? && Parse(lines[k]).value.2 == tag
    ensures EndsWith(Parse(lines[k]).value.0, valencia)
    ensures exists i :: 0 <= i < |lines| && Parse(lines[i]).Ok? && Parse(lines[i]).value.1 == Parse(lines[k]).value.1 &&
              Parse(lines[i]).value.2 == tag && EndsWith(Parse(lines[i]).value.0, central)
  {
    var groups := LemmasWithPos(lines, tag).value;
    GroupsSound(lines, tag);
    var key :| key in groups && |groups[key]| > 1 && RetagIndex(groups[key], central, valencia).Some? &&
               RetagIndex(groups[key], central, valencia).value == k;
    RetagBelongs(groups, lines, tag, key, central, valencia);
    var j :| 0 <= j < |groups[key]| && EndsWith(groups[key][j].1, central);
    assert Records(lines, tag, key, groups[key][j]);
  }

  /** At most one line per lemma is retagged. */
  lemma RetaggedOncePerLemma(lines: seq<string>, tag: string, central: string, valencia: string, k1: int, k2: int)
    requires LemmasWithPos(lines, tag).Ok?
    requires k1 in Retagged(lines, tag, central, valencia) && k2 in Retagged(lines, tag, central, valencia)
    requires 0 <= k1 < |lines| && 0 <= k2 < |lines|
    requires Parse(lines[k1]).Ok? && Parse(lines[k2]).Ok? && Parse(lines[k1]).value.1 == Parse(lines[k2]).value.1
    ensures k1 == k2
  {
    var groups := LemmasWithPos(lines, tag).value;
    GroupsSound(lines, tag);
    var key1 :| key1 in groups && |groups[key1]| > 1 && RetagIndex(groups[key1], central, valencia).Some? &&
                RetagIndex(groups[key1], central, valencia).value == k1;
    var key2 :| key2 in groups && |groups[key2]| > 1 && RetagIndex(groups[key2], central, valencia).Some? &&
                RetagIndex(groups[key2], central, valencia).value == k2;
    RetagBelongs(groups, lines, tag, key1, central, valencia);
    RetagBelongs(groups, lines, tag, key2, central, valencia);
  }

  /** A group not yet visited retags a line no visited group retagged. */
  lemma RetagFresh(groups: Groups, lines: seq<string>, tag: string, done: set<string>, key: string,
                   central: string, valencia: string)
    requires GroupsOf(groups, lines, tag) && key in groups && key !in done
    requires RetagIndex(groups[key], central, valencia).Some?
    ensures RetagIndex(groups[key], central, valencia).value !in RetagSet(groups, done, central, valencia)
  {
    var k := RetagIndex(groups[key], central, valencia).value;
    RetagBelongs(groups, lines, tag, key, central, valencia);
    forall other | other in done && other in groups && |groups[other]| > 1 &&
                   RetagIndex(groups[other], central, valencia).Some?
      ensures RetagIndex(groups[other], central, valencia).value != k
    {
      RetagBelongs(groups, lines, tag, other, central, valencia);
    }
  }

  lemma RetagSetAdd(groups: Groups, done: set<string>, key: string, central: string, valencia: string)
    requires key in groups
    ensures RetagSet(groups, done + {key}, central, valencia) ==
              RetagSet(groups, done, central, valencia) +
              (if |groups[key]| > 1 && RetagIndex(groups[key], central, valencia).Some?
               then {RetagIndex(groups[key], central, valencia).value} else {})
  {
  }

  /** The lines of `retagged` carry the Valencian tag, the others are as
      they were. */
  predicate RetaggedSoFar(lines: seq<string>, orig: seq<string>, tag: string, retagged: set<int>) {
    && |lines| == |orig|
    && forall k :: 0 <= k < |lines| ==>
         lines[k] == if k in retagged then ReplaceAll(orig[k], tag, ValTag(tag)) else orig[k]
  }

  lemma RetagOne(lines: seq<string>, orig: seq<string>, tag: string, retagged: set<int>, idx: int)
    requires RetaggedSoFar(lines, orig, tag, retagged)
    requires 0 <= idx < |orig| && idx !in retagged
    ensures RetaggedSoFar(lines[idx := ReplaceAll(lines[idx], tag, ValTag(tag))], orig, tag, retagged + {idx})
  {
  }

  /** One group of the loop of `_valencia_form`. */
  lemma RetagGroupStep(groups: Groups, orig: seq<string>, lines: seq<string>, tag: string, done: set<string>,
                       key: string, central: string, valencia: string)
    requires GroupsOf(groups, orig, tag) && key in groups && key !in done
    requires RetaggedSoFar(lines, orig, tag, RetagSet(groups, done, central, valencia))
    ensures var index := RetagIndex(groups[key], central, valencia);
            if |groups[key]| > 1 && index.Some? then
              && 0 <= index.value < |lines|
              && RetaggedSoFar(lines[index.value := ReplaceAll(lines[index.value], tag, ValTag(tag))], orig, tag,
                               RetagSet(groups, done + {key}, central, valencia))
            else RetaggedSoFar(lines, orig, tag, RetagSet(groups, done + {key}, central, valencia))
  {
    RetagSetAdd(groups, done, key, central, valencia);
    var index := RetagIndex(groups[key], central, valencia);
    if |groups[key]| > 1 && index.Some? {
      RetagBelongs(groups, orig, tag, key, central, valencia);
      RetagFresh(groups, orig, tag, done, key, central, valencia);
      RetagOne(lines, orig, tag, RetagSet(groups, done, central, valencia), index.value);
    }
  }

  /** `tag[0:-1] + "V"`: the tag with its last character turned into 'V'. */
  function ValTag(tag: string): (r: string)
    ensures |r| >= 1 && r[|r| - 1] == 'V'
    ensures tag != [] ==> |r| == |tag| && r[..|r| - 1] == tag[..|tag| - 1]
  {
    (if tag == [] then [] else tag[..|tag| - 1]) + "V"
  }

  /** Python's `s[0:n]`. */
  function Head(s: string, n: nat): string {
    if |s| < n then s else s[..n]
  }

  const AnarLemma := "anar"
  const AnarAux := "anar_aux"
  const AuxiliaryTag := "VA"

  /** The line `_pre_process_anar_auxiliar` appends. */
  const AnarAuxLine := "anar anar_aux VAN00000"

  /** One line of `_pre_process_anar_auxiliar`: an auxiliary form of "anar"
      is filed under the lemma "anar_aux". */
  function RewriteAnar(line: string): string
    requires Parse(line).Ok?
  {
    var (form, lem, postag) := Parse(line).value;
    if lem == AnarLemma && Head(postag, 2) == AuxiliaryTag then form + " " + AnarAux + " " + postag else line
  }

  function AnarRewritten(lines: seq<string>): (r: seq<string>)
    requires AllParse(lines)
    ensures |r| == |lines|
  {
    seq(|lines|, k requires 0 <= k < |lines| => RewriteAnar(lines[k]))
  }

  lemma AnarAuxToken()
    ensures IsToken(AnarAux)
  {
  }

  /** The rewriting is done once and for all: a rewritten line parses with
      the lemma "anar_aux" and is left alone by a second pass. */
  lemma RewriteAnarStable(line: string)
    requires Parse(line).Ok?
    ensures Parse(RewriteAnar(line)).Ok?
    ensures RewriteAnar(RewriteAnar(line)) == RewriteAnar(line)
  {
    var (form, lem, postag) := Parse(line).value;
    if lem == AnarLemma && Head(postag, 2) == AuxiliaryTag {
      ParsedTokens(line);
      AnarAuxToken();
      ParseLine(form, AnarAux, postag, [], RewriteAnar(line));
      assert AnarAux != AnarLemma;
    }
  }

  lemma AnarAuxLineParses()
    ensures Parse(AnarAuxLine) == Ok((AnarLemma, AnarAux, "VAN00000"))
  {
    AnarAuxToken();
    AnarToken();
    InfinitiveTagToken();
    AnarAuxLineSplit();
    ParseLine(AnarLemma, AnarAux, "VAN00000", [], AnarAuxLine);
  }

  lemma AnarToken()
    ensures IsToken(AnarLemma)
  {
  }

  lemma InfinitiveTagToken()
    ensures IsToken("VAN00000")
  {
  }

  lemma AnarAuxLineSplit()
    ensures AnarAuxLine == AnarLemma + " " + AnarAux + " " + "VAN00000" + []
  {
  }

  /** The appended line makes "anar_aux" an infinitive lemma. */
  lemma AnarAuxIsInfinitive(lines: seq<string>, line: string)
    requires InfinitiveLemmas(lines).Ok? && line == AnarAuxLine
    ensures InfinitiveLemmas(lines + [line]) == Ok(InfinitiveLemmas(lines).value + [AnarAux])
  {
    AnarAuxLineParses();
    assert Parse(line).value.2 in InfinitiveTags;
    InfinitiveLineAppends(lines, line);
  }

  /** One line of the backward walk of `exclude_lemmas_list`: `front` are
      the lines still to visit, `back` the kept lines already visited. */
  lemma ExcludeStep(front: seq<string>, back: seq<string>, line: string, lemmas: seq<string>)
    returns (front': seq<string>, back': seq<string>)
    requires front != [] && front[|front| - 1] == line && Parse(line).Ok?
    ensures |front'| == |front| - 1
    ensures Kept(front', lemmas) + back' == Kept(front, lemmas) + back
    ensures multiset(front') + multiset{line} == multiset(front)
    ensures Excluded(line, lemmas) ==> line in front + back && front' + back' == RemoveFirst(front + back, line)
    ensures !Excluded(line, lemmas) ==> front' + back' == front + back
  {
    if Excluded(line, lemmas) {
      assert line in front;
      RemoveFirstConcat(front, back, line);
      KeptRemoveFirst(front, line, lemmas);
      front', back' := RemoveFirst(front, line), back;
    } else {
      KeptMoves(front, back, line, lemmas);
      front', back' := front[..|front| - 1], [line] + back;
    }
  }

  lemma VisitedLineOf(front: seq<string>, orig: seq<string>, visited: multiset<string>, idx: int)
    requires 0 <= idx < |front| && visited + multiset(front) == multiset(orig)
    ensures front[idx] in orig
  {
    assert front[idx] in multiset(front);
    assert front[idx] in multiset(orig);
  }

  lemma AllVisited(front: seq<string>, orig: seq<string>, visited: multiset<string>)
    requires front == [] && visited + multiset(front) == multiset(orig)
    requires forall l | l in visited :: Parse(l).Ok?
    ensures AllParse(orig)
  {
    forall k | 0 <= k < |orig| ensures Parse(orig[k]).Ok? {
      assert orig[k] in multiset(orig);
    }
  }

  /** The dictionary, as the list of its lines. */
  class DictionaryFile {
    var lines: seq<string>

    /** The lines as `_read_file` returns them; the Valencian retagging and
        the "anar" rewriting that `__init__` runs next are `Prepare`. */
    constructor(fileLines: seq<string>)
      ensures lines == fileLines
    {
      lines := fileLines;
    }

    /** `get_lemmas_for_infinitives`. */
    method GetLemmasForInfinitives() returns (r: Result<seq<string>>)
      ensures r == InfinitiveLemmas(lines)
    {
      var lemmas := [];
      for i := 0 to |lines|
        invariant InfinitiveLemmas(lines[..i]) == Ok(lemmas)
      {
        assert lines[..i + 1][..i] == lines[..i];
        var parsed := Parse(lines[i]);
        if parsed.Err? {
          InfinitiveLemmasErr(lines, i + 1);
          return Err(parsed.error);
        }
        var (form, lem, postag) := parsed.value;
        if postag !in InfinitiveTags {
          continue;
        }
        lemmas := lemmas + [lem];
      }
      assert lines[..|lines|] == lines;
      return Ok(lemmas);
    }

    /** `exclude_lemmas_list`: walking the lines from the last to the first,
        every line whose lower-cased lemma is in `lemmas` is removed with
        `list.remove`, which takes out the first equal line. */
    method ExcludeLemmasList(lemmas: seq<string>) returns (outcome: Outcome)
      modifies this
      ensures outcome.Pass? <==> AllParse(old(lines))
      ensures outcome.Pass? ==> lines == Kept(old(lines), lemmas)
    {
      ghost var orig := lines;
      ghost var front := lines;
      ghost var back: seq<string> := [];
      ghost var visited: multiset<string> := multiset{};
      var size := |lines|;
      var idx := size - 1;
      while idx >= 0
        invariant -1 <= idx < size
        invariant |front| == idx + 1
        invariant lines == front + back
        invariant Kept(front, lemmas) + back == Kept(orig, lemmas)
        invariant visited + multiset(front) == multiset(orig)
        invariant forall l | l in visited :: Parse(l).Ok?
      {
        var line := lines[idx];
        assert line == front[idx];
        var parsed := Parse(line);
        if parsed.Err? {
          VisitedLineOf(front, orig, visited, idx);
          return Fail(parsed.error);
        }
        var (form, lem, postag) := parsed.value;
        lem := Lower(lem);
        front, back := ExcludeStep(front, back, line, lemmas);
        if lem in lemmas {
          lines := RemoveFirst(lines, line);
        }
        visited := visited + multiset{line};
        idx := idx - 1;
      }
      AllVisited(front, orig, visited);
      return Pass;
    }

    /** `_load_specific_lemmas_with_pos(tag)`. */
    method LoadSpecificLemmasWithPos(tag: string) returns (r: Result<Groups>)
      ensures r == LemmasWithPos(lines, tag)
    {
      var groups: Groups := map[];
      for i := 0 to |lines|
        invariant LemmasWithPos(lines[..i], tag) == Ok(groups)
      {
        assert lines[..i + 1][..i] == lines[..i];
        var parsed := Parse(lines[i]);
        if parsed.Err? {
          LemmasWithPosErr(lines, tag, i + 1);
          return Err(parsed.error);
        }
        var (form, lem, postag) := parsed.value;
        if postag == tag {
          groups := AddForm(groups, lem, (i, form));
        }
      }
      assert lines[..|lines|] == lines;
      return Ok(groups);
    }

    /** `_valencia_update_tag_in_line`: only line `lineIdx` changes, every
        occurrence of the tag in it replaced by its Valencian variant. */
    method ValenciaUpdateTagInLine(lineIdx: nat, tag: string)
      requires lineIdx < |lines|
      modifies this
      ensures lines == old(lines)[lineIdx := ReplaceAll(old(lines)[lineIdx], tag, ValTag(tag))]
    {
      var line := lines[lineIdx];
      var valTag := ValTag(tag);
      line := ReplaceAll(line, tag, valTag);
      lines := lines[lineIdx := line];
    }

    /** `_valencia_form`: in each group of two or more forms of one lemma
        with the tag, the first form ending in `valencia` is retagged when
        some form ends in `central`. */
    method ValenciaForm(tag: string, central: string, valencia: string) returns (outcome: Outcome)
      modifies this
      ensures outcome.Pass? <==> AllParse(old(lines))
      ensures outcome.Fail? ==> lines == old(lines)
      ensures outcome.Pass? ==> LemmasWithPos(old(lines), tag).Ok? && |lines| == |old(lines)|
      ensures outcome.Pass? ==> forall k :: 0 <= k < |lines| ==>
                lines[k] == if k in Retagged(old(lines), tag, central, valencia)
                            then ReplaceAll(old(lines)[k], tag, ValTag(tag)) else old(lines)[k]
      ensures outcome.Pass? ==> lines == ValenciaLines(old(lines), tag, central, valencia)
    {
      LemmasWithPosOk(lines, tag);
      var r := LoadSpecificLemmasWithPos(tag);
      if r.Err? {
        return Fail(r.error);
      }
      var groups := r.value;
      GroupsSound(lines, tag);
      RetagGroups(groups, tag, central, valencia);
      return Pass;
    }

    /** The loop of `_valencia_form` over the groups of two or more forms. */
    method RetagGroups(groups: Groups, tag: string, central: string, valencia: string)
      requires GroupsOf(groups, lines, tag)
      modifies this
      ensures RetaggedSoFar(lines, old(lines), tag, RetagSet(groups, groups.Keys, central, valencia))
    {
      ghost var orig := lines;
      var keys := groups.Keys;
      ghost var done: set<string> := {};
      while keys != {}
        invariant keys <= groups.Keys && done == groups.Keys - keys
        invariant RetaggedSoFar(lines, orig, tag, RetagSet(groups, done, central, valencia))
        decreases |keys|
      {
        var key :| key in keys;
        RetagGroup(groups, orig, tag, done, key, central, valencia);
        keys := keys - {key};
        done := done + {key};
      }
    }

    /** One group of the loop of `_valencia_form`: a group of two or more
        forms retags the line `RetagIndex` picks, if any. */
    method RetagGroup(groups: Groups, ghost orig: seq<string>, tag: string, ghost done: set<string>,
                      key: string, central: string, valencia: string)
      requires GroupsOf(groups, orig, tag) && key in groups && key !in done
      requires RetaggedSoFar(lines, orig, tag, RetagSet(groups, done, central, valencia))
      modifies this
      ensures RetaggedSoFar(lines, orig, tag, RetagSet(groups, done + {key}, central, valencia))
    {
      var forms := groups[key];
      RetagGroupStep(groups, orig, lines, tag, done, key, central, valencia);
      if |forms| > 1 {
        var index := RetagIndex(forms, central, valencia);
        if index.Some? {
          ValenciaUpdateTagInLine(index.value, tag);
        }
      }
    }

    /** `_valencia`: the past participles in "ès" and the infinitives in
        "èixer" that have a Valencian variant. */
    method Valencia() returns (outcome: Outcome)
      modifies this
      ensures outcome.Pass? ==> AllParse(old(lines)) && |lines| == |old(lines)|
      ensures outcome.Pass? ==>
                (LemmasWithPos(old(lines), ParticipleTag).Ok? &&
                 var once := ValenciaLines(old(lines), ParticipleTag, "ès", "és");
                 LemmasWithPos(once, MainInfinitiveTag).Ok? && lines == ValenciaLines(once, MainInfinitiveTag, "èixer", "éixer"))
    {
      outcome := ValenciaForm(ParticipleTag, "ès", "és");
      if outcome.Fail? {
        return;
      }
      outcome := ValenciaForm(MainInfinitiveTag, "èixer", "éixer");
    }

    /** `_pre_process_anar_auxiliar`: each auxiliary form of "anar" is
        refiled under "anar_aux", then the infinitive "anar" of "anar_aux"
        is appended. */
    method PreProcessAnarAuxiliar() returns (outcome: Outcome)
      modifies this
      ensures outcome.Pass? <==> AllParse(old(lines))
      ensures outcome.Pass? ==> lines == AnarRewritten(old(lines)) + [AnarAuxLine]
    {
      ghost var orig := lines;
      for i := 0 to |lines|
        invariant |lines| == |orig|
        invariant forall k :: 0 <= k < i ==> Parse(orig[k]).Ok? && lines[k] == RewriteAnar(orig[k])
        invariant forall k :: i <= k < |lines| ==> lines[k] == orig[k]
      {
        var line := lines[i];
        var parsed := Parse(line);
        if parsed.Err? {
          return Fail(parsed.error);
        }
        var (form, lem, postag) := parsed.value;
        if lem == AnarLemma && Head(postag, 2) == AuxiliaryTag {
          line := form + " " + AnarAux + " " + postag;
          lines := lines[i := line];
        }
      }
      lines := lines + [AnarAuxLine];
      return Pass;
    }

    /** The rest of `__init__`: the Valencian retagging, then the "anar"
        rewriting. */
    method Prepare() returns (outcome: Outcome)
      modifies this
      ensures outcome.Pass? ==> AllParse(old(lines)) && |lines| == |old(lines)| + 1
      ensures outcome.Pass? ==> lines[|lines| - 1] == AnarAuxLine
      ensures outcome.Pass? ==>
                (LemmasWithPos(old(lines), ParticipleTag).Ok? &&
                 var once := ValenciaLines(old(lines), ParticipleTag, "ès", "és");
                 LemmasWithPos(once, MainInfinitiveTag).Ok? &&
                 var twice := ValenciaLines(once, MainInfinitiveTag, "èixer", "éixer");
                 AllParse(twice) && lines == AnarRewritten(twice) + [AnarAuxLine])
    {
      outcome := Valencia();
      if outcome.Fail? {
        return;
      }
      outcome := PreProcessAnarAuxiliar();
    }
  }
}
