/** The inline strippers of `TextExtract`: wiki links, bold and italic
    quotes, and XML tags, each over one line. */
module TextInline {
  import opened Strings
  import opened Wrappers

  // ---------------------------------------------------------------------
  // Internal links
  // ---------------------------------------------------------------------

  const LinkOpen := "[["
  const LinkClose := "]]"
  const LinkSeparator := "|"

  /** A `]]` found at or after a `[[` starts at least two characters after it. */
  lemma LinkCloseAfterOpen(line: string, start: int, end: int)
    requires OccursAt(line, LinkOpen, start) && OccursAt(line, LinkClose, end) && start <= end
    ensures start + |LinkOpen| <= end
  {
    OccursChars(line, LinkOpen, start);
    OccursChars(line, LinkClose, end);
    assert line[start] == LinkOpen[0] && line[start + 1] == LinkOpen[1];
    assert line[end] == LinkClose[0];
  }

  /** The display text of the link `line[start..end + 2]`: what follows the
      first `|` at or after `start`, or the whole target when there is no
      `|`. A `|` found only after the `]]` gives the empty text, as Python's
      slice `line[sep + 1:end]` does when `sep + 1 > end`. */
  function LinkText(line: string, start: nat, end: nat): (t: string)
    requires OccursAt(line, LinkOpen, start) && OccursAt(line, LinkClose, end) && start <= end
    ensures |t| + |LinkOpen| <= end - start
  {
    LinkCloseAfterOpen(line, start, end);
    var sep := Find(line, LinkSeparator, start);
    if sep < 0 then line[start + |LinkOpen|..end]
    else if sep < end then
      assert sep != start && sep != start + 1 by {
        OccursChars(line, LinkOpen, start);
        OccursChars(line, LinkSeparator, sep);
        assert line[start] == LinkOpen[0] && line[start + 1] == LinkOpen[1];
        assert line[sep] == LinkSeparator[0];
      }
      line[sep + |LinkSeparator|..end]
    else []
  }

  /** One call of `_remove_internal_links`: the first `[[` and the first `]]`
      after it, replaced by the display text; `None` when the line is
      returned as it is. */
  function LinkStep(line: string): (r: Option<string>)
    ensures r.Some? ==> |r.value| + |LinkOpen| + |LinkClose| <= |line|
  {
    var start := Find(line, LinkOpen, 0);
    if start < 0 then None
    else
      var end := Find(line, LinkClose, start);
      if end < 0 then None
      else Some(line[..start] + LinkText(line, start, end) + line[end + |LinkClose|..])
  }

  /** No `]]` follows the first `[[`: the line `_remove_internal_links`
      returns as it is. */
  predicate LinkFree(line: string) {
    var start := Find(line, LinkOpen, 0);
    start < 0 || Find(line, LinkClose, start) < 0
  }

  /** `_remove_internal_links`: every recursive call shortens the line by
      at least four characters, so the recursion ends, on a line where no
      `]]` follows the first `[[`. */
  function RemoveInternalLinks(line: string): (r: string)
    ensures |r| <= |line|
    ensures LinkFree(r)
    decreases |line|
  {
    match LinkStep(line)
    case None => line
    case Some(next) => RemoveInternalLinks(next)
  }

  /** Removing links twice is removing them once. */
  lemma RemoveInternalLinksIdempotent(line: string)
    ensures RemoveInternalLinks(RemoveInternalLinks(line)) == RemoveInternalLinks(line)
  {
    var r := RemoveInternalLinks(line);
    assert LinkStep(r) == None;
  }

  /** A line that is already link-free is returned unchanged. */
  lemma LinkFreeKept(line: string)
    requires LinkFree(line)
    ensures RemoveInternalLinks(line) == line
  {
  }

  /** `[[target|text]]` becomes `text`. */
  lemma LinkWithText(line: string, pre: string, target: string, text: string, post: string)
    requires '[' !in pre && ']' !in target && '|' !in target && ']' !in text
    requires line == pre + (LinkOpen + target + (LinkSeparator + text + (LinkClose + post)))
    ensures LinkStep(line) == Some(pre + text + post)
  {
    var sep := |pre| + |LinkOpen| + |target|;
    var end := sep + |LinkSeparator| + |text|;
    LinkOpenFound(line, pre, LinkOpen + target + (LinkSeparator + text + (LinkClose + post)));
    assert Find(line, LinkSeparator, |pre|) == sep by {
      NotInConcat('|', LinkOpen, target);
      FindInSuffix(line, pre, LinkOpen + target, LinkSeparator + text + (LinkClose + post), LinkSeparator);
    }
    assert Find(line, LinkClose, |pre|) == end by {
      var a := LinkOpen + target + (LinkSeparator + text);
      ConcatAssoc(LinkOpen + target, LinkSeparator + text, LinkClose + post);
      NotInConcat(']', LinkOpen, target);
      NotInConcat(']', LinkSeparator, text);
      NotInConcat(']', LinkOpen + target, LinkSeparator + text);
      FindInSuffix(line, pre, a, LinkClose + post, LinkClose);
    }
    LinkWithTextSlices(line, pre, target, text, post, sep, end);
  }

  lemma LinkWithTextSlices(line: string, pre: string, target: string, text: string, post: string, sep: int, end: int)
    requires line == pre + (LinkOpen + target + (LinkSeparator + text + (LinkClose + post)))
    requires sep == |pre| + |LinkOpen| + |target| && end == sep + |LinkSeparator| + |text|
    ensures line[..|pre|] == pre && line[sep + 1..end] == text && line[end + 2..] == post
  {
    assert line[sep..] == LinkSeparator + text + (LinkClose + post);
  }

  /** The first `[[` of the line is the one after `pre`. */
  lemma LinkOpenFound(line: string, pre: string, tail: string)
    requires '[' !in pre && StartsWith(tail, LinkOpen) && line == pre + tail
    ensures Find(line, LinkOpen, 0) == |pre|
  {
    FindAfter(pre, tail, LinkOpen);
  }

  /** A pattern found right after a stretch that cannot start it. */
  lemma FindInSuffix(line: string, pre: string, a: string, b: string, p: string)
    requires |p| > 0 && p[0] !in a && StartsWith(b, p) && line == pre + (a + b)
    ensures Find(line, p, |pre|) == |pre| + |a|
  {
    FindAfter(a, b, p);
    FindShift(pre, a + b, p, 0);
  }

  /** `[[target]]` becomes `target` when no `|` follows on the line. */
  lemma LinkWithoutText(line: string, pre: string, target: string, post: string)
    requires '[' !in pre && ']' !in target && '|' !in target && '|' !in post
    requires line == pre + (LinkOpen + target + (LinkClose + post))
    ensures LinkStep(line) == Some(pre + target + post)
  {
    var end := |pre| + |LinkOpen| + |target|;
    LinkOpenFound(line, pre, LinkOpen + target + (LinkClose + post));
    assert Find(line, LinkClose, |pre|) == end by {
      NotInConcat(']', LinkOpen, target);
      FindInSuffix(line, pre, LinkOpen + target, LinkClose + post, LinkClose);
    }
    assert Find(line, LinkSeparator, |pre|) == -1 by {
      NotInConcat('|', LinkOpen, target);
      NotInConcat('|', LinkClose, post);
      NotInConcat('|', LinkOpen + target, LinkClose + post);
      NotInSuffix(line, pre, LinkOpen + target + (LinkClose + post), '|');
      FindNoHead(line, LinkSeparator, |pre|);
    }
    assert line[..|pre|] == pre;
    assert line[|pre| + 2..end] == target;
    assert line[end + 2..] == post;
  }

  /** Past `pre`, a character missing from the rest of the line is found nowhere. */
  lemma NotInSuffix(line: string, pre: string, rest: string, c: char)
    requires line == pre + rest && c !in rest
    ensures forall j :: |pre| <= j < |line| ==> line[j] != c
  {
    forall j | |pre| <= j < |line| ensures line[j] != c {
      assert line[j] == rest[j - |pre|];
    }
  }

  /** `[[target]]` with a `|` later on the line: the kept text is empty. */
  lemma LinkWithLaterBar(line: string, pre: string, target: string, mid: string, post: string)
    requires '[' !in pre && ']' !in target && '|' !in target && '|' !in mid
    requires line == pre + (LinkOpen + target + (LinkClose + mid + (LinkSeparator + post)))
    ensures LinkStep(line) == Some(pre + (mid + (LinkSeparator + post)))
  {
    var end := |pre| + |LinkOpen| + |target|;
    LinkOpenFound(line, pre, LinkOpen + target + (LinkClose + mid + (LinkSeparator + post)));
    LaterBarClose(line, pre, target, mid, post);
    LaterBarSeparator(line, pre, target, mid, post);
    LaterBarPieces(line, pre, target, mid, post);
    LinkStepPastBar(line, |pre|, end, end + |LinkClose| + |mid|);
  }

  lemma LaterBarClose(line: string, pre: string, target: string, mid: string, post: string)
    requires ']' !in target
    requires line == pre + (LinkOpen + target + (LinkClose + mid + (LinkSeparator + post)))
    ensures Find(line, LinkClose, |pre|) == |pre| + |LinkOpen| + |target|
  {
    NotInConcat(']', LinkOpen, target);
    FindInSuffix(line, pre, LinkOpen + target, LinkClose + mid + (LinkSeparator + post), LinkClose);
  }

  lemma LaterBarSeparator(line: string, pre: string, target: string, mid: string, post: string)
    requires '|' !in target && '|' !in mid
    requires line == pre + (LinkOpen + target + (LinkClose + mid + (LinkSeparator + post)))
    ensures Find(line, LinkSeparator, |pre|) == |pre| + |LinkOpen| + |target| + |LinkClose| + |mid|
  {
    var a := LinkOpen + target + (LinkClose + mid);
    ConcatAssoc(LinkOpen + target, LinkClose + mid, LinkSeparator + post);
    NotInConcat('|', LinkOpen, target);
    NotInConcat('|', LinkClose, mid);
    NotInConcat('|', LinkOpen + target, LinkClose + mid);
    FindInSuffix(line, pre, a, LinkSeparator + post, LinkSeparator);
  }

  lemma LaterBarPieces(line: string, pre: string, target: string, mid: string, post: string)
    requires line == pre + (LinkOpen + target + (LinkClose + mid + (LinkSeparator + post)))
    ensures line[..|pre|] == pre
    ensures line[|pre| + |LinkOpen| + |target| + |LinkClose|..] == mid + (LinkSeparator + post)
  {
    var tail := LinkOpen + target + (LinkClose + mid + (LinkSeparator + post));
    assert line[|pre|..] == tail;
    assert tail[|LinkOpen + target|..] == LinkClose + mid + (LinkSeparator + post);
  }

  /** A `|` only after the `]]`: the link is dropped with no text left. */
  lemma LinkStepPastBar(line: string, start: nat, end: nat, sep: int)
    requires Find(line, LinkOpen, 0) == start && Find(line, LinkClose, start) == end
    requires Find(line, LinkSeparator, start) == sep && sep > end
    ensures LinkStep(line) == Some(line[..start] + line[end + |LinkClose|..])
  {
    assert LinkText(line, start, end) == [];
    assert line[..start] + [] == line[..start];
  }

  /** The shape of ` [[ensumar|Ensumar]] `: one link, nothing else to open,
      gives its display text in place. */
  lemma OneLinkRemoved(line: string, pre: string, target: string, text: string, post: string)
    requires '[' !in pre && ']' !in target && '|' !in target && ']' !in text
    requires '[' !in text && '[' !in post
    requires line == pre + (LinkOpen + target + (LinkSeparator + text + (LinkClose + post)))
    ensures RemoveInternalLinks(line) == pre + text + post
  {
    LinkWithText(line, pre, target, text, post);
    NotInConcat('[', pre, text);
    NotInConcat('[', pre + text, post);
    NoLinkKept(pre + text + post);
  }

  /** A line without `[` is returned unchanged. */
  lemma NoLinkKept(line: string)
    requires '[' !in line
    ensures RemoveInternalLinks(line) == line
  {
    FindNoHead(line, LinkOpen, 0);
  }

  // ---------------------------------------------------------------------
  // Bold and italic
  // ---------------------------------------------------------------------

  const Bold := "'''"
  const Italic := "''"

  /** `_remove_mediawiki_markup`: every `'''` deleted, then every `''` of
      what is left. The line never grows, and no two quotes are left side by
      side, so neither bold nor italic survives. */
  function RemoveMediawikiMarkup(line: string): (r: string)
    ensures |r| <= |line|
    ensures NoQuotePair(r)
  {
    var unbold := ReplaceAll(line, Bold, "");
    ReplaceDeleteShrinks(line, Bold);
    ReplaceDeleteShrinks(unbold, Italic);
    ItalicDeletionLeavesNoPair(unbold);
    ReplaceAll(unbold, Italic, "")
  }

  /** No two quotes side by side. */
  predicate NoQuotePair(s: string) {
    forall k :: 0 <= k && k + 1 < |s| ==> !(s[k] == '\'' && s[k + 1] == '\'')
  }

  lemma {:induction false} ItalicDeletionLeavesNoPair(s: string)
    ensures NoQuotePair(ReplaceAll(s, Italic, ""))
    decreases |s|
  {
    if |s| >= |Italic| {
      if s[..|Italic|] == Italic {
        ItalicDeletionLeavesNoPair(s[|Italic|..]);
      } else {
        var rest := ReplaceAll(s[1..], Italic, "");
        ItalicDeletionLeavesNoPair(s[1..]);
        if s[0] == '\'' {
          assert s[1] != '\'';
          DeletionKeepsHead(s[1..]);
        }
        var r := [s[0]] + rest;
        forall k | 0 <= k && k + 1 < |r| ensures !(r[k] == '\'' && r[k + 1] == '\'') {
          if k > 0 {
            assert r[k] == rest[k - 1] && r[k + 1] == rest[k];
          }
        }
      }
    }
  }

  /** A line that does not start with a quote keeps its first character. */
  lemma DeletionKeepsHead(s: string)
    requires s != [] && s[0] != '\''
    ensures ReplaceAll(s, Italic, "") != [] && ReplaceAll(s, Italic, "")[0] == s[0]
  {
    if |s| >= |Italic| {
      assert s[..|Italic|][0] != Italic[0];
    }
  }

  /** Text without quotes passes through unchanged. */
  lemma MediawikiMarkupPlainKept(line: string)
    requires '\'' !in line
    ensures RemoveMediawikiMarkup(line) == line
  {
    ReplaceAbsent(line, Bold, "");
    ReplaceAbsent(line, Italic, "");
  }

  /** `'''bold'''` around quote-free text keeps the text. */
  lemma BoldRemoved(line: string, pre: string, t: string, post: string)
    requires '\'' !in pre && '\'' !in t && '\'' !in post
    requires line == pre + (Bold + (t + (Bold + post)))
    ensures RemoveMediawikiMarkup(line) == pre + (t + post)
  {
    BoldDeleted(pre, t, post);
    NotInConcat('\'', t, post);
    NotInConcat('\'', pre, t + post);
    ReplaceAbsent(pre + (t + post), Italic, "");
  }

  lemma BoldDeleted(pre: string, t: string, post: string)
    requires '\'' !in pre && '\'' !in t && '\'' !in post
    ensures ReplaceAll(pre + (Bold + (t + (Bold + post))), Bold, "") == pre + (t + post)
  {
    var tail := Bold + post;
    assert ReplaceAll(tail, Bold, "") == post by {
      ReplaceAtHead(Bold, post, "");
      ReplaceAbsent(post, Bold, "");
    }
    var mid := t + tail;
    assert ReplaceAll(mid, Bold, "") == t + post by {
      ReplacePlainPrefix(t, tail, Bold, "");
    }
    var body := Bold + mid;
    assert ReplaceAll(body, Bold, "") == t + post by {
      ReplaceAtHead(Bold, mid, "");
    }
    ReplacePlainPrefix(pre, body, Bold, "");
  }

  // ---------------------------------------------------------------------
  // XML tags
  // ---------------------------------------------------------------------

  const RefOpen := "<ref>"
  const RefClose := "</ref>"
  const ItalicMark := "{I}"
  const ItalicEndMark := "{/I}"
  const ItalicTag := "<i>"
  const ItalicEndTag := "</i>"

  /** Where the line that index `i` is on ends: the first `\n` at or after
      `i`, or the end of the text. Python's `.` stops there. */
  function LineEnd(s: string, i: nat): (e: nat)
    requires i <= |s|
    ensures i <= e <= |s| && (e == |s| || s[e] == '\n')
    ensures forall k :: i <= k < e ==> s[k] != '\n'
    decreases |s| - i
  {
    if i == |s| || s[i] == '\n' then i else LineEnd(s, i + 1)
  }

  /** The last `</ref>` lying within `s[lo..hi]`, or -1: where the greedy
      `(.*)` of the `<ref>` pattern gives back to. */
  function LastRefClose(s: string, lo: nat, hi: nat): (j: int)
    requires lo <= hi <= |s|
    ensures j == -1 || (lo <= j && j + |RefClose| <= hi && OccursAt(s, RefClose, j))
    ensures forall k :: lo <= k && j < k && k + |RefClose| <= hi ==> !OccursAt(s, RefClose, k)
    decreases hi - lo
  {
    if hi - lo < |RefClose| then -1
    else if OccursAt(s, RefClose, hi - |RefClose|) then hi - |RefClose|
    else LastRefClose(s, lo, hi - 1)
  }

  /** A `</ref>` at `c`, after a `<ref>` at `a` and on the same line: what
      `.*</ref>` can reach from there. */
  predicate RefCloseAfter(s: string, a: nat, c: int) {
    a + |RefOpen| <= c && c + |RefClose| <= |s|
    && c + |RefClose| <= LineEnd(s, a + |RefOpen|) && OccursAt(s, RefClose, c)
  }

  /** The `<ref>` pattern matches from `k`. */
  ghost predicate RefMatchesAt(s: string, k: nat) {
    OccursAt(s, RefOpen, k) && exists c :: RefCloseAfter(s, k, c)
  }

  /** No match of the `<ref>` pattern starts in `s[i..a]`. */
  ghost predicate NoRefMatchBefore(s: string, i: nat, a: nat) {
    forall k :: i <= k < a ==> !RefMatchesAt(s, k)
  }

  /** The leftmost match of `(<ref>)(.*)(</ref>)` at or after `i`: the
      leftmost `<ref>` with a `</ref>` later on its line, and the last such
      `</ref>`. */
  function RefMatch(s: string, i: nat): (m: Option<(nat, nat)>)
    requires i <= |s|
    ensures m.Some? ==> var (a, b) := m.value;
      i <= a && OccursAt(s, RefOpen, a) && a + |RefOpen| <= b && OccursAt(s, RefClose, b)
      && RefCloseAfter(s, a, b) && NoRefMatchBefore(s, i, a)
      && forall c :: b < c ==> !RefCloseAfter(s, a, c)
    ensures m.None? ==> forall k :: i <= k ==> !RefMatchesAt(s, k)
    decreases |s| - i
  {
    if i + |RefOpen| > |s| then
      assert forall k :: i <= k ==> !OccursAt(s, RefOpen, k);
      None
    else
      var j := LastRefClose(s, i + |RefOpen|, LineEnd(s, i + |RefOpen|));
      if OccursAt(s, RefOpen, i) && j >= 0 then
        assert NoRefMatchBefore(s, i, i);
        Some((i, j))
      else
        assert !RefMatchesAt(s, i);
        var m := RefMatch(s, i + 1);
        assert forall a :: i + 1 <= a && NoRefMatchBefore(s, i + 1, a) ==> NoRefMatchBefore(s, i, a);
        m
  }

  /** The first substitution of `_remove_xml_tags`:
      `re.sub(r"(<ref>)(.*)(</ref>)", r" {I}\2{/I}", line)`. */
  function RefToItalic(s: string): (r: string)
    ensures |r| <= |s|
    ensures (forall k :: !RefMatchesAt(s, k)) ==> r == s
    decreases |s|, 1
  {
    var m := RefMatch(s, 0);
    if m.None? then s
    else
      assert RefMatchesAt(s, m.value.0);
      RefReplaced(s, m.value.0, m.value.1)
  }

  /** The replacement at a match `(a, b)`, and the substitution continued
      after its `</ref>`. */
  function RefReplaced(s: string, a: nat, b: nat): (r: string)
    requires a + |RefOpen| <= b && b + |RefClose| <= |s|
    ensures |r| <= |s|
    decreases |s|, 0
  {
    s[..a] + (" " + (ItalicMark + (s[a + |RefOpen|..b] + (ItalicEndMark + RefToItalic(s[b + |RefClose|..])))))
  }

  /** No `<` with a `>` anywhere after it. */
  predicate TagFree(s: string) {
    forall a, b :: 0 <= a < b < |s| ==> !(s[a] == '<' && s[b] == '>')
  }

  /** The second substitution, `re.sub(r"<[^>]*>", "", line)`: from the
      first `<` to the first `>` after it, deleted, again and again. */
  function StripTags(s: string): (r: string)
    ensures |r| <= |s|
    ensures TagFree(r)
    ensures '<' !in s ==> r == s
    decreases |s|
  {
    var i := Find(s, "<", 0);
    if i < 0 then
      LessAbsent(s);
      s
    else
      OccursChars(s, "<", i);
      assert s[i] == '<';
      var j := Find(s, ">", i + 1);
      if j < 0 then
        NoCloseAfterFirstOpen(s, i);
        s
      else
        var rest := StripTags(s[j + 1..]);
        PrefixWithoutOpen(s, i, rest);
        s[..i] + rest
  }

  lemma LessAbsent(s: string)
    requires Find(s, "<", 0) < 0
    ensures TagFree(s)
  {
    forall a | 0 <= a < |s| ensures s[a] != '<' {
      assert !OccursAt(s, "<", a);
      assert s[a..a + 1] == [s[a]];
    }
  }

  lemma NoCloseAfterFirstOpen(s: string, i: nat)
    requires Find(s, "<", 0) == i && i + 1 <= |s| && Find(s, ">", i + 1) < 0
    ensures TagFree(s)
  {
    forall a, b | 0 <= a < b < |s| ensures !(s[a] == '<' && s[b] == '>') {
      if s[a] == '<' && s[b] == '>' {
        assert s[a..a + 1] == "<" && s[b..b + 1] == ">";
        assert OccursAt(s, "<", a);
        assert OccursAt(s, ">", b);
      }
    }
  }

  lemma PrefixWithoutOpen(s: string, i: nat, rest: string)
    requires Find(s, "<", 0) == i && TagFree(rest)
    ensures TagFree(s[..i] + rest)
  {
    var r := s[..i] + rest;
    forall a, b | 0 <= a < b < |r| ensures !(r[a] == '<' && r[b] == '>') {
      if a < i {
        assert r[a] == s[a];
        assert !OccursAt(s, "<", a);
        assert s[a..a + 1] == [s[a]];
      } else {
        assert r[a] == rest[a - i] && r[b] == rest[b - i];
      }
    }
  }

  /** The first tag goes, with the text before it kept, and the stripping
      goes on after its `>`: `t` may hold a `<` but no `>`. */
  lemma StripOneTag(line: string, pre: string, t: string, post: string)
    requires line == pre + ("<" + (t + (">" + post)))
    requires '<' !in pre && '>' !in t
    ensures StripTags(line) == pre + StripTags(post)
  {
    var i := |pre|;
    var j := |pre| + 1 + |t|;
    assert Find(line, "<", 0) == i by {
      FindAfter(pre, "<" + (t + (">" + post)), "<");
    }
    assert Find(line, ">", i + 1) == j by {
      TagBody(line, pre, t, post);
      FindFirstAt(line, ">", i + 1, j);
    }
    StripTagsAt(line, i, j);
    assert line[..i] == pre;
    assert line[j + 1..] == post;
  }

  /** One unfolding of `StripTags` at a found tag. */
  lemma StripTagsAt(s: string, i: int, j: int)
    requires Find(s, "<", 0) == i && i >= 0 && Find(s, ">", i + 1) == j && j >= 0
    ensures j + 1 <= |s| && StripTags(s) == s[..i] + StripTags(s[j + 1..])
  {
  }

  /** Inside a tag: no `>` before the one at `j`. */
  lemma TagBody(line: string, pre: string, t: string, post: string)
    requires line == pre + ("<" + (t + (">" + post))) && '>' !in t
    ensures OccursAt(line, ">", |pre| + 1 + |t|)
    ensures forall k :: |pre| + 1 <= k < |pre| + 1 + |t| ==> line[k] != ">"[0]
  {
    var j := |pre| + 1 + |t|;
    assert line[j..j + 1] == ">";
    forall k | |pre| + 1 <= k < j ensures line[k] != ">"[0] {
      assert line[k] == t[k - |pre| - 1];
    }
  }

  /** `_remove_xml_tags`: `<ref>…</ref>` to ` {I}…{/I}`, every other tag
      deleted, then `{I}` and `{/I}` to `<i>` and `</i>`. The line never
      grows: each marker is as long as the tag that replaces it. */
  function RemoveXmlTags(line: string): (r: string)
    ensures |r| <= |line|
  {
    var stripped := StripTags(RefToItalic(line));
    var italicOpen := ReplaceAll(stripped, ItalicMark, ItalicTag);
    ReplaceNoLonger(stripped, ItalicMark, ItalicTag);
    ReplaceNoLonger(italicOpen, ItalicEndMark, ItalicEndTag);
    ReplaceAll(italicOpen, ItalicEndMark, ItalicEndTag)
  }

  /** `<` can start no `<ref>` at or after `i`. */
  lemma {:induction false} RefMatchNone(s: string, i: nat)
    requires i <= |s|
    requires forall k :: i <= k && k + 1 < |s| && s[k] == '<' ==> s[k + 1] != 'r'
    ensures RefMatch(s, i) == None
    decreases |s| - i
  {
    if i + |RefOpen| <= |s| {
      assert !OccursAt(s, RefOpen, i) by {
        if s[i] == '<' {
          NotAt(s, RefOpen, i, 1);
        } else {
          NotAt(s, RefOpen, i, 0);
        }
      }
      RefMatchNone(s, i + 1);
    }
  }

  /** Stretches without `<` do not move the leftmost `<ref>` match. */
  lemma {:induction false} RefMatchSkip(s: string, i: nat, k: nat)
    requires i <= k <= |s|
    requires forall m :: i <= m < k ==> s[m] != '<'
    ensures RefMatch(s, i) == RefMatch(s, k)
    decreases k - i
  {
    if i < k {
      if i + |RefOpen| <= |s| {
        NotAt(s, RefOpen, i, 0);
      }
      RefMatchSkip(s, i + 1, k);
    }
  }

  /** No `\n` before `k`: the line runs at least that far. */
  lemma {:induction false} LineEndAtLeast(s: string, i: nat, k: nat)
    requires i <= k <= |s|
    requires forall m :: i <= m < k ==> s[m] != '\n'
    ensures LineEnd(s, i) >= k
    decreases |s| - i
  {
    if i < k {
      LineEndAtLeast(s, i + 1, k);
    }
  }

  /** The `</ref>` at `c` is the last one when no `<` follows it. */
  lemma {:induction false} LastRefCloseIs(s: string, lo: nat, hi: nat, c: nat)
    requires lo <= c && c + |RefClose| <= hi <= |s| && OccursAt(s, RefClose, c)
    requires forall k :: c < k < hi ==> s[k] != '<'
    ensures LastRefClose(s, lo, hi) == c
    decreases hi
  {
    if hi - |RefClose| != c {
      NotAt(s, RefClose, hi - |RefClose|, 0);
      LastRefCloseIs(s, lo, hi - 1, c);
    }
  }

  /** A line without `<` and `{` passes through unchanged. */
  lemma XmlPlainKept(line: string)
    requires '<' !in line && '{' !in line
    ensures RemoveXmlTags(line) == line
  {
    RefMatchNone(line, 0);
    FindNoHead(line, "<", 0);
    ReplaceAbsent(line, ItalicMark, ItalicTag);
    ReplaceAbsent(line, ItalicEndMark, ItalicEndTag);
  }

  /** `pre<ref>x</ref>post` becomes `pre <i>x</i>post`: the shape of
      `…cordill.<ref>Barbara Kingsolver, 2010</ref>`. */
  lemma XmlRefToItalic(line: string, pre: string, x: string, post: string)
    requires '<' !in pre && '<' !in x && '<' !in post && '\n' !in x
    requires '{' !in pre && '{' !in x && '{' !in post
    requires line == pre + (RefOpen + (x + (RefClose + post)))
    ensures RemoveXmlTags(line) == pre + (" " + (ItalicTag + (x + (ItalicEndTag + post))))
  {
    var c := |pre| + |RefOpen| + |x|;
    RefFound(line, pre, x, post, c);
    var v := RefToItalic(line);
    assert v == pre + (" " + (ItalicMark + (x + (ItalicEndMark + post)))) by {
      RefCut(line, pre, x, post, c);
      RefMatchNone(post, 0);
    }
    assert StripTags(v) == v by {
      RefResultHasNoLess(v, pre, x, post);
      FindNoHead(v, "<", 0);
    }
    ItalicMarksReplaced(pre, x, post);
  }

  /** The leftmost `<ref>` match of such a line. */
  lemma RefFound(line: string, pre: string, x: string, post: string, c: nat)
    requires '<' !in pre && '<' !in x && '<' !in post && '\n' !in x
    requires line == pre + (RefOpen + (x + (RefClose + post)))
    requires c == |pre| + |RefOpen| + |x|
    ensures RefMatch(line, 0) == Some((|pre|, c))
  {
    var a := |pre| + |RefOpen|;
    assert RefMatch(line, 0) == RefMatch(line, |pre|) by {
      CharsOfConcat(line, pre, RefOpen + (x + (RefClose + post)));
      RefMatchSkip(line, 0, |pre|);
    }
    assert OccursAt(line, RefOpen, |pre|) by {
      OccursAfter(line, pre, RefOpen + (x + (RefClose + post)), RefOpen);
    }
    RefCloseFound(line, pre, x, post, a, c);
  }

  /** The greedy `.*</ref>` of that match ends at the one `</ref>`. */
  lemma RefCloseFound(line: string, pre: string, x: string, post: string, a: nat, c: nat)
    requires '<' !in post && '\n' !in x
    requires line == pre + (RefOpen + (x + (RefClose + post)))
    requires a == |pre| + |RefOpen| && c == a + |x|
    ensures LastRefClose(line, a, LineEnd(line, a)) == c
  {
    var tail := RefClose + post;
    var hi := LineEnd(line, a);
    assert line == (pre + RefOpen) + (x + tail) by {
      ConcatAssoc(pre, RefOpen, x + tail);
    }
    assert line == (pre + RefOpen + x) + tail by {
      ConcatAssoc(pre + RefOpen, x, tail);
    }
    OccursAfter(line, pre + RefOpen + x, tail, RefClose);
    RefCloseChars(line, pre + RefOpen + x, post);
    assert hi >= c + |RefClose| by {
      RefBodyChars(line, pre + RefOpen, x, tail);
      LineEndAtLeast(line, a, c + |RefClose|);
    }
    LastRefCloseIs(line, a, hi, c);
  }

  lemma RefCloseChars(line: string, head: string, post: string)
    requires line == head + (RefClose + post) && '<' !in post
    ensures forall k :: |head| <= k < |head| + |RefClose| ==> line[k] != '\n'
    ensures forall k :: |head| < k < |line| ==> line[k] != '<'
  {
    forall k | |head| <= k < |line|
      ensures k < |head| + |RefClose| ==> line[k] != '\n'
      ensures |head| < k ==> line[k] != '<'
    {
      if k < |head| + |RefClose| {
        assert line[k] == RefClose[k - |head|];
      } else {
        assert line[k] == post[k - |head| - |RefClose|];
      }
    }
  }

  lemma RefBodyChars(line: string, head: string, x: string, tail: string)
    requires '\n' !in x && line == head + (x + tail)
    ensures forall m :: |head| <= m < |head| + |x| ==> line[m] != '\n'
  {
    CharsOfConcat(line, head, x + tail);
    CharsOfConcat(x + tail, x, tail);
  }

  /** The substitution at that match. */
  lemma RefCut(line: string, pre: string, x: string, post: string, c: nat)
    requires line == pre + (RefOpen + (x + (RefClose + post)))
    requires c == |pre| + |RefOpen| + |x| && RefMatch(line, 0) == Some((|pre|, c))
    ensures RefToItalic(line) == pre + (" " + (ItalicMark + (x + (ItalicEndMark + RefToItalic(post)))))
  {
    var a := |pre| + |RefOpen|;
    RefToItalicAt(line, |pre|, c);
    RefCutSlices(line, pre, x, post, a, c);
  }

  /** One unfolding of `RefToItalic` at a known match, grouped to the right. */
  lemma RefToItalicAt(s: string, a: nat, b: nat)
    requires RefMatch(s, 0) == Some((a, b))
    ensures a + |RefOpen| <= b && b + |RefClose| <= |s|
    ensures RefToItalic(s)
         == s[..a] + (" " + (ItalicMark + (s[a + |RefOpen|..b] + (ItalicEndMark + RefToItalic(s[b + |RefClose|..])))))
  {
    assert RefToItalic(s) == RefReplaced(s, a, b);
  }

  lemma RefCutSlices(line: string, pre: string, x: string, post: string, a: nat, c: nat)
    requires line == pre + (RefOpen + (x + (RefClose + post)))
    requires a == |pre| + |RefOpen| && c == a + |x|
    ensures line[..|pre|] == pre && line[a..c] == x && line[c + |RefClose|..] == post
  {
    assert line[|pre|..] == RefOpen + (x + (RefClose + post));
    assert line[a..] == x + (RefClose + post);
  }

  lemma RefResultHasNoLess(v: string, pre: string, x: string, post: string)
    requires '<' !in pre && '<' !in x && '<' !in post
    requires v == pre + (" " + (ItalicMark + (x + (ItalicEndMark + post))))
    ensures forall k :: 0 <= k < |v| ==> v[k] != '<'
  {
    NotInConcat('<', ItalicEndMark, post);
    NotInConcat('<', x, ItalicEndMark + post);
    NotInConcat('<', ItalicMark, x + (ItalicEndMark + post));
    NotInConcat('<', " ", ItalicMark + (x + (ItalicEndMark + post)));
    NotInConcat('<', pre, " " + (ItalicMark + (x + (ItalicEndMark + post))));
  }

  /** The two marks become `<i>` and `</i>`. */
  lemma ItalicMarksReplaced(pre: string, x: string, post: string)
    requires '{' !in pre && '{' !in x && '{' !in post
    ensures ReplaceAll(ReplaceAll(pre + (" " + (ItalicMark + (x + (ItalicEndMark + post)))), ItalicMark, ItalicTag),
                       ItalicEndMark, ItalicEndTag)
         == pre + (" " + (ItalicTag + (x + (ItalicEndTag + post))))
  {
    var w := pre + (" " + (ItalicTag + (x + (ItalicEndMark + post))));
    assert ReplaceAll(pre + (" " + (ItalicMark + (x + (ItalicEndMark + post)))), ItalicMark, ItalicTag) == w by {
      ReplacePlainPrefix(pre, " " + (ItalicMark + (x + (ItalicEndMark + post))), ItalicMark, ItalicTag);
      ReplacePlainPrefix(" ", ItalicMark + (x + (ItalicEndMark + post)), ItalicMark, ItalicTag);
      ReplaceAtHead(ItalicMark, x + (ItalicEndMark + post), ItalicTag);
      ReplacePlainPrefix(x, ItalicEndMark + post, ItalicMark, ItalicTag);
      EndMarkKept(post);
    }
    ReplacePlainPrefix(pre, " " + (ItalicTag + (x + (ItalicEndMark + post))), ItalicEndMark, ItalicEndTag);
    ReplacePlainPrefix(" " + ItalicTag, x + (ItalicEndMark + post), ItalicEndMark, ItalicEndTag);
    ConcatAssoc(" ", ItalicTag, x + (ItalicEndMark + post));
    ReplacePlainPrefix(x, ItalicEndMark + post, ItalicEndMark, ItalicEndTag);
    ReplaceAtHead(ItalicEndMark, post, ItalicEndTag);
    ReplaceAbsent(post, ItalicEndMark, ItalicEndTag);
    ConcatAssoc(" ", ItalicTag, x + (ItalicEndTag + post));
  }

  /** The first `<ref>` of a line, with no `</ref>` anywhere after the one
      closing it, becomes ` {I}`, the text in between is kept, and the
      `</ref>` becomes `{/I}`. */
  lemma RefToItalicFirst(line: string, pre: string, x: string, post: string)
    requires line == pre + (RefOpen + (x + (RefClose + post)))
    requires forall k :: 0 <= k < |pre| ==> !OccursAt(line, RefOpen, k)
    requires '\n' !in x
    requires forall k :: !OccursAt(post, RefClose, k)
    ensures RefToItalic(line) == pre + (" " + (ItalicMark + (x + (ItalicEndMark + post))))
  {
    var a := |pre|;
    var c := |pre| + |RefOpen| + |x|;
    RefSpan(line, pre, x, post);
    var m := RefMatch(line, 0);
    assert RefMatchesAt(line, a);
    var (a', b) := m.value;
    assert a' == a;
    assert b == c by {
      if b > c {
        RefCloseNotPast(line, pre, x, post, b);
      }
    }
    RefCut(line, pre, x, post, c);
  }

  /** The `<ref>` after `pre` and the `</ref>` after `x`, on one line. */
  lemma RefSpan(line: string, pre: string, x: string, post: string)
    requires line == pre + (RefOpen + (x + (RefClose + post))) && '\n' !in x
    ensures OccursAt(line, RefOpen, |pre|)
    ensures RefCloseAfter(line, |pre|, |pre| + |RefOpen| + |x|)
  {
    var a := |pre| + |RefOpen|;
    var c := a + |x|;
    OccursAfter(line, pre, RefOpen + (x + (RefClose + post)), RefOpen);
    var head := RefSplit(line, pre, x, post);
    OccursAfter(line, head, RefClose + post, RefClose);
    RefCloseNoNewline(line, head, post);
    assert forall m :: a <= m < c ==> line[m] != '\n' by {
      RefBodyNoNewline(line, pre, x, post);
    }
    LineEndAtLeast(line, a, c + |RefClose|);
  }

  /** The line cut just before its `</ref>`. */
  lemma RefSplit(line: string, pre: string, x: string, post: string) returns (head: string)
    requires line == pre + (RefOpen + (x + (RefClose + post)))
    ensures head == pre + RefOpen + x && line == head + (RefClose + post)
  {
    head := pre + RefOpen + x;
    ConcatAssoc(pre, RefOpen, x + (RefClose + post));
    ConcatAssoc(pre + RefOpen, x, RefClose + post);
  }

  lemma RefBodyNoNewline(line: string, pre: string, x: string, post: string)
    requires line == pre + (RefOpen + (x + (RefClose + post))) && '\n' !in x
    ensures forall m :: |pre| + |RefOpen| <= m < |pre| + |RefOpen| + |x| ==> line[m] != '\n'
  {
    ConcatAssoc(pre, RefOpen, x + (RefClose + post));
    RefBodyChars(line, pre + RefOpen, x, RefClose + post);
  }

  lemma RefCloseNoNewline(line: string, head: string, post: string)
    requires line == head + (RefClose + post)
    ensures forall k :: |head| <= k < |head| + |RefClose| ==> line[k] != '\n'
  {
    forall k | |head| <= k < |head| + |RefClose| ensures line[k] != '\n' {
      assert line[k] == RefClose[k - |head|];
    }
  }

  /** No `</ref>` starts after the one closing `x`. */
  lemma RefCloseNotPast(line: string, pre: string, x: string, post: string, b: int)
    requires line == pre + (RefOpen + (x + (RefClose + post)))
    requires forall k :: !OccursAt(post, RefClose, k)
    requires b > |pre| + |RefOpen| + |x|
    ensures !OccursAt(line, RefClose, b)
  {
    var c := |pre| + |RefOpen| + |x|;
    var head := RefSplit(line, pre, x, post);
    if b < c + |RefClose| {
      assert line[b] == RefClose[b - c];
      NotAt(line, RefClose, b, 0);
    } else if OccursAt(line, RefClose, b) {
      var k := b - c - |RefClose|;
      assert line[b..b + |RefClose|] == post[k..k + |RefClose|];
      assert OccursAt(post, RefClose, k);
    }
  }

  /** `pre<i>x</i>post` loses its two tags: the shape of
      `… d'algú. <i>És un vestit que la desparença molt</i>.`. */
  lemma XmlItalicTagsRemoved(line: string, pre: string, x: string, post: string)
    requires '<' !in pre && '<' !in x && '<' !in post
    requires '{' !in pre && '{' !in x && '{' !in post
    requires line == pre + ("<i>" + (x + ("</i>" + post)))
    ensures RemoveXmlTags(line) == pre + (x + post)
  {
    assert RefToItalic(line) == line by {
      ItalicTagsNoRef(line, pre, x, post);
    }
    assert StripTags(line) == pre + (x + post) by {
      ItalicTagsStripped(line, pre, x, post);
    }
    NotInConcat('{', x, post);
    NotInConcat('{', pre, x + post);
    ReplaceAbsent(pre + (x + post), ItalicMark, ItalicTag);
    ReplaceAbsent(pre + (x + post), ItalicEndMark, ItalicEndTag);
  }

  lemma ItalicTagsStripped(line: string, pre: string, x: string, post: string)
    requires '<' !in pre && '<' !in x && '<' !in post
    requires line == pre + ("<i>" + (x + ("</i>" + post)))
    ensures StripTags(line) == pre + (x + post)
  {
    var rest := x + ("</i>" + post);
    ItalicOpenStripped(line, pre, rest);
    ItalicCloseStripped(rest, x, post);
    assert StripTags(post) == post;
  }

  lemma ItalicOpenStripped(line: string, pre: string, rest: string)
    requires '<' !in pre && line == pre + ("<i>" + rest)
    ensures StripTags(line) == pre + StripTags(rest)
  {
    assert "<i>" == "<" + "i" + ">";
    TagStripped(line, pre, "<i>", "i", rest);
  }

  lemma ItalicCloseStripped(line: string, x: string, post: string)
    requires '<' !in x && line == x + ("</i>" + post)
    ensures StripTags(line) == x + StripTags(post)
  {
    assert "</i>" == "<" + "/i" + ">";
    TagStripped(line, x, "</i>", "/i", post);
  }

  /** `StripOneTag` for a tag given whole. */
  lemma TagStripped(line: string, pre: string, tag: string, t: string, post: string)
    requires line == pre + (tag + post) && tag == "<" + t + ">"
    requires '<' !in pre && '>' !in t
    ensures StripTags(line) == pre + StripTags(post)
  {
    TagSplit(tag, t, post);
    StripOneTag(line, pre, t, post);
  }

  lemma TagSplit(tag: string, t: string, z: string)
    requires tag == "<" + t + ">"
    ensures tag + z == "<" + (t + (">" + z))
  {
    ConcatAssoc("<" + t, ">", z);
    ConcatAssoc("<", t, ">" + z);
  }

  /** Each `<` of such a line is followed by `i` or `/`, never by `r`. */
  lemma ItalicTagsNoRef(line: string, pre: string, x: string, post: string)
    requires '<' !in pre && '<' !in x && '<' !in post
    requires line == pre + ("<i>" + (x + ("</i>" + post)))
    ensures forall k :: !RefMatchesAt(line, k)
  {
    var p := |pre|;
    var q := p + 3 + |x|;
    ItalicTagsLess(line, pre, x, post);
    assert line[p + 1] == 'i' && line[q + 1] == '/';
    forall k | 0 <= k ensures !OccursAt(line, RefOpen, k) {
      if k + |RefOpen| <= |line| {
        if k == p || k == q {
          NotAt(line, RefOpen, k, 1);
        } else {
          NotAt(line, RefOpen, k, 0);
        }
      }
    }
  }

  /** The only `<` of such a line are those of its two tags. */
  lemma ItalicTagsLess(line: string, pre: string, x: string, post: string)
    requires '<' !in pre && '<' !in x && '<' !in post
    requires line == pre + ("<i>" + (x + ("</i>" + post)))
    ensures forall k :: 0 <= k < |line| && k != |pre| && k != |pre| + 3 + |x| ==> line[k] != '<'
  {
    var p := |pre|;
    var q := p + 3 + |x|;
    forall k | 0 <= k < |line| && k != p && k != q ensures line[k] != '<' {
      if k < p {
        assert line[k] == pre[k];
      } else if k < p + 3 {
        assert line[k] == "<i>"[k - p];
      } else if k < q {
        assert line[k] == x[k - p - 3];
      } else if k < q + 4 {
        assert line[k] == "</i>"[k - q];
      } else {
        assert line[k] == post[k - q - 4];
      }
    }
  }

  /** `{/I}` is not `{I}`: the first replacement leaves it alone. */
  lemma EndMarkKept(post: string)
    requires '{' !in post
    ensures ReplaceAll(ItalicEndMark + post, ItalicMark, ItalicTag) == ItalicEndMark + post
  {
    var s := ItalicEndMark + post;
    assert s[..|ItalicMark|] != ItalicMark by {
      assert s[1] == '/';
    }
    assert s[1..] == "/I}" + post;
    NotInConcat('{', "/I}", post);
    ReplaceAbsent("/I}" + post, ItalicMark, ItalicTag);
  }
}
