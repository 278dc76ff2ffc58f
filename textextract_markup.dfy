/** The line strippers of `TextExtract`: each one removes one kind of
    MediaWiki markup from a line of a Wiktionary page. */
module TextMarkup {
  import opened Strings
  import opened Wrappers

  // ---------------------------------------------------------------------
  // Galleries
  // ---------------------------------------------------------------------

  const GalleryOpen := "<gallery>"
  const GalleryClose := "</gallery>"

  /** `_remove_gallery_sections`: cuts the first `<gallery>` and everything up
      to and including the first `</gallery>` after it. */
  function RemoveGallerySections(line: string): (r: string)
    ensures |r| <= |line|
    ensures Find(line, GalleryOpen, 0) < 0 ==> r == line
  {
    var start := Find(line, GalleryOpen, 0);
    if start < 0 then line
    else
      var end := Find(line, GalleryClose, start);
      if end < 0 then line
      else line[..start] + line[end + |GalleryClose|..]
  }

  /** With `<gallery>` first occurring after `pre` and `</gallery>` first
      occurring after `mid`, the span between them goes, tags included, and
      only that one: `post` may hold more. */
  lemma GalleryRemovesFirstSpan(line: string, pre: string, mid: string, post: string)
    requires line == pre + GalleryOpen + mid + GalleryClose + post
    requires forall j :: 0 <= j < |pre| ==> !OccursAt(line, GalleryOpen, j)
    requires forall j :: |pre| <= j < |pre| + |GalleryOpen| + |mid| ==> !OccursAt(line, GalleryClose, j)
    ensures RemoveGallerySections(line) == pre + post
  {
    var e := |pre| + |GalleryOpen| + |mid|;
    assert Find(line, GalleryOpen, 0) == |pre| by {
      GalleryAt(line, pre, mid, post);
      FindIs(line, GalleryOpen, 0, |pre|);
    }
    assert Find(line, GalleryClose, |pre|) == e by {
      GalleryCloseAt(line, pre, mid, post);
      FindIs(line, GalleryClose, |pre|, e);
    }
    assert line[..|pre|] == pre;
    assert line[e + |GalleryClose|..] == post;
  }

  lemma GalleryAt(line: string, pre: string, mid: string, post: string)
    requires line == pre + GalleryOpen + mid + GalleryClose + post
    ensures OccursAt(line, GalleryOpen, |pre|)
  {
    assert line[|pre|..|pre| + |GalleryOpen|] == GalleryOpen;
  }

  lemma GalleryCloseAt(line: string, pre: string, mid: string, post: string)
    requires line == pre + GalleryOpen + mid + GalleryClose + post
    ensures OccursAt(line, GalleryClose, |pre| + |GalleryOpen| + |mid|)
  {
    var e := |pre| + |GalleryOpen| + |mid|;
    assert line[e..e + |GalleryClose|] == GalleryClose;
  }

  /** A line without a closing tag after the opening one is kept whole. */
  lemma GalleryUnclosedKept(line: string)
    requires Find(line, GalleryOpen, 0) >= 0
    requires forall j :: Find(line, GalleryOpen, 0) <= j ==> !OccursAt(line, GalleryClose, j)
    ensures RemoveGallerySections(line) == line
  {
    FindNone(line, GalleryClose, Find(line, GalleryOpen, 0));
  }

  // ---------------------------------------------------------------------
  // Templates
  // ---------------------------------------------------------------------

  const Open := "{{"
  const Close := "}}"

  /** `{{` and `}}` never start at the same index, so the `return line` branch
      of the scanning loop (definitions/textextract.py:115-116) is dead. */
  lemma OpenCloseDiffer(line: string, i: int)
    ensures !(OccursAt(line, Open, i) && OccursAt(line, Close, i))
  {
    if OccursAt(line, Open, i) {
      OccursChars(line, Open, i);
      NotAt(line, Close, i, 0);
    }
  }

  /** Where the next `{{` and the next `}}` at or after `pos` are: -1 or an
      occurrence. */
  predicate Found(line: string, pos: nat, start: int, end: int) {
    (start == -1 || (pos <= start && OccursAt(line, Open, start)))
    && (end == -1 || (pos <= end && OccursAt(line, Close, end)))
  }

  /** The `(start_pos, end_pos)` pair the scanning loop of `_remove_templates`
      breaks with, exactly as written: a `}}` met before any `{{` still
      decrements the counter and sets `end_pos`. */
  function ScanAsWritten(line: string, pos: nat, depth: int, startPos: int, endPos: int): (r: (int, int))
    requires pos <= |line|
    requires -1 <= startPos <= |line| && -1 <= endPos <= |line|
    ensures -1 <= r.0 <= |line| && -1 <= r.1 <= |line|
    decreases |line| - pos, 1
  {
    ScanStepAsWritten(line, pos, Find(line, Open, pos), Find(line, Close, pos), depth, startPos, endPos)
  }

  /** One iteration of that loop, given what the two `find` calls returned. */
  function ScanStepAsWritten(line: string, pos: nat, start: int, end: int, depth: int, startPos: int, endPos: int): (r: (int, int))
    requires pos <= |line| && Found(line, pos, start, end)
    requires -1 <= startPos <= |line| && -1 <= endPos <= |line|
    ensures -1 <= r.0 <= |line| && -1 <= r.1 <= |line|
    decreases |line| - pos, 0
  {
    OpenCloseDiffer(line, start);
    if start < 0 && end < 0 then (startPos, endPos)
    else if startPos >= 0 && depth == 0 then (startPos, endPos)
    else if end < 0 || (start >= 0 && start < end) then
      ScanAsWritten(line, start + |Open|, depth + 1, if startPos < 0 then start else startPos, endPos)
    else if start < 0 || start > end then
      ScanAsWritten(line, end + |Close|, depth - 1, startPos, end + |Close|)
    else
      assert false; (startPos, endPos)
  }

  /** The loop state the corrected scan keeps: before a template opens nothing
      is counted; after, `start_pos` is its `{{` and `end_pos` a later `}}`. */
  predicate ScanState(line: string, pos: nat, depth: int, startPos: int, endPos: int) {
    pos <= |line|
    && (startPos < 0 ==> startPos == -1 && endPos == -1 && depth == 0)
    && (startPos >= 0 ==> startPos + |Open| <= pos && depth >= 0)
    && (startPos >= 0 && endPos >= 0 ==> startPos + |Open| + |Close| <= endPos <= pos)
    && (startPos >= 0 && endPos < 0 ==> endPos == -1)
  }

  /** The scanning loop with a `}}` met before any `{{` taken as the sign of a
      malformed line: the scan stops with nothing found, so the line is
      returned unchanged, like the loop's other fallbacks
      (definitions/textextract.py:115-119). */
  function Scan(line: string, pos: nat, depth: int, startPos: int, endPos: int): (r: (int, int))
    requires ScanState(line, pos, depth, startPos, endPos)
    ensures r.0 < 0 ==> r == (-1, -1)
    ensures r.0 >= 0 ==> r.0 + |Open| <= |line|
    ensures r.1 >= 0 ==> r.0 >= 0 && r.0 + |Open| + |Close| <= r.1 <= |line|
    decreases |line| - pos, 1
  {
    ScanStep(line, pos, Find(line, Open, pos), Find(line, Close, pos), depth, startPos, endPos)
  }

  function ScanStep(line: string, pos: nat, start: int, end: int, depth: int, startPos: int, endPos: int): (r: (int, int))
    requires ScanState(line, pos, depth, startPos, endPos) && Found(line, pos, start, end)
    ensures r.0 < 0 ==> r == (-1, -1)
    ensures r.0 >= 0 ==> r.0 + |Open| <= |line|
    ensures r.1 >= 0 ==> r.0 >= 0 && r.0 + |Open| + |Close| <= r.1 <= |line|
    decreases |line| - pos, 0
  {
    FoundBounds(line, pos, start, end);
    if start < 0 && end < 0 then (startPos, endPos)
    else if startPos >= 0 && depth == 0 then (startPos, endPos)
    else if end < 0 || (start >= 0 && start < end) then
      Scan(line, start + |Open|, depth + 1, if startPos < 0 then start else startPos, endPos)
    else if start < 0 || start > end then
      if startPos < 0 then (-1, -1)
      else Scan(line, end + |Close|, depth - 1, startPos, end + |Close|)
    else
      OpenCloseDiffer(line, start); assert false; (startPos, endPos)
  }

  /** What `Found` says about where the two markers sit, without their text. */
  lemma FoundBounds(line: string, pos: nat, start: int, end: int)
    requires Found(line, pos, start, end)
    ensures start >= 0 ==> pos <= start && start + |Open| <= |line|
    ensures end >= 0 ==> pos <= end && end + |Close| <= |line|
  {
  }

  /** What one pass of `_remove_templates` decides: keep the line, or cut
      `line[start_pos:end_pos]` and go again on what is left. */
  datatype Step = Done | Cut(next: string)

  function TemplateStepAsWritten(line: string): Step
  {
    var (sp, ep) := ScanAsWritten(line, 0, 0, -1, -1);
    if sp < 0 || ep < 0 then Done else Cut(line[..sp] + line[ep..])
  }

  /** One pass of the corrected `_remove_templates`; every cut shortens the line. */
  function TemplateStep(line: string): (r: Step)
    ensures r.Cut? ==> |r.next| + |Open| + |Close| <= |line|
  {
    var (sp, ep) := Scan(line, 0, 0, -1, -1);
    if sp < 0 || ep < 0 then Done else Cut(line[..sp] + line[ep..])
  }

  /** `_remove_templates` as written. Python's recursion limit is the `fuel`:
      `None` stands for the `RecursionError` the recursion ends in. */
  function RemoveTemplatesAsWritten(line: string, fuel: nat): Option<string>
    decreases fuel, 1
  {
    AfterStepAsWritten(line, TemplateStepAsWritten(line), fuel)
  }

  /** What `_remove_templates` as written does once one step on `line` has been taken. */
  function AfterStepAsWritten(line: string, step: Step, fuel: nat): Option<string>
    decreases fuel, 0
  {
    match step
    case Done => Some(line)
    case Cut(next) => if fuel == 0 then None else RemoveTemplatesAsWritten(next, fuel - 1)
  }

  /** `_remove_templates` corrected so that a line with a `}}` ahead of
      every `{{` is returned unchanged: it terminates on every line and
      never makes it longer. */
  function RemoveTemplates(line: string): (r: string)
    ensures |r| <= |line|
    decreases |line|
  {
    match TemplateStep(line)
    case Done => line
    case Cut(next) => RemoveTemplates(next)
  }

  /** The line `RemoveTemplates` returns has no template left to cut. */
  lemma {:induction false} RemoveTemplatesDone(line: string)
    ensures TemplateStep(RemoveTemplates(line)) == Done
    decreases |line|
  {
    match TemplateStep(line)
    case Done =>
    case Cut(next) => RemoveTemplatesDone(next);
  }

  /** Removing templates twice is removing them once. */
  lemma RemoveTemplatesIdempotent(line: string)
    ensures RemoveTemplates(RemoveTemplates(line)) == RemoveTemplates(line)
  {
    RemoveTemplatesDone(line);
  }

  /** The scanning loop of `_remove_templates` (corrected): where the first
      template starts and where the `}}` closing it ends. */
  method ScanTemplates(line: string) returns (startPos: int, endPos: int)
    ensures (startPos, endPos) == Scan(line, 0, 0, -1, -1)
  {
    ghost var target := Scan(line, 0, 0, -1, -1);
    var pos, depth := 0, 0;
    startPos, endPos := -1, -1;
    while true
      invariant ScanState(line, pos, depth, startPos, endPos)
      invariant Scan(line, pos, depth, startPos, endPos) == target
      decreases |line| - pos
    {
      var start := Find(line, Open, pos);
      var end := Find(line, Close, pos);
      OpenCloseDiffer(line, start);
      if start < 0 && end < 0 {
        ScanBreaks(line, pos, depth, startPos, endPos);
        break;
      }
      if startPos >= 0 && depth == 0 {
        ScanBreaks(line, pos, depth, startPos, endPos);
        break;
      }
      ghost var pos0, depth0, startPos0, endPos0 := pos, depth, startPos, endPos;
      if end < 0 || (start >= 0 && start < end) {
        pos := start + |Open|;
        depth := depth + 1;
        if startPos < 0 {
          startPos := start;
        }
      } else if start < 0 || start > end {
        if startPos < 0 {
          ScanStrayClose(line, pos, depth, startPos, endPos);
          break;
        }
        pos := end + |Close|;
        endPos := pos;
        depth := depth - 1;
      } else {
        assert false;
      }
      ScanSteps(line, pos0, depth0, startPos0, endPos0, target, pos, depth, startPos, endPos);
    }
  }

  /** One iteration of the corrected loop that neither breaks nor meets a
      stray `}}` keeps the scan's result. */
  lemma ScanSteps(line: string, pos: nat, depth: int, startPos: int, endPos: int, target: (int, int),
                  pos': nat, depth': int, startPos': int, endPos': int)
    requires ScanState(line, pos, depth, startPos, endPos) && Scan(line, pos, depth, startPos, endPos) == target
    requires var start, end := Find(line, Open, pos), Find(line, Close, pos);
      var opens := end < 0 || (start >= 0 && start < end);
      !(start < 0 && end < 0) && !(startPos >= 0 && depth == 0) && (opens || startPos >= 0) &&
      pos' == (if opens then start + |Open| else end + |Close|) &&
      depth' == (if opens then depth + 1 else depth - 1) &&
      startPos' == (if opens && startPos < 0 then start else startPos) &&
      endPos' == (if opens then endPos else pos')
    ensures ScanState(line, pos', depth', startPos', endPos') && Scan(line, pos', depth', startPos', endPos') == target
  {
    var start, end := Find(line, Open, pos), Find(line, Close, pos);
    if end < 0 || (start >= 0 && start < end) {
      ScanOpens(line, pos, depth, startPos, endPos, target, pos', depth', startPos');
    } else {
      ScanCloses(line, pos, depth, startPos, endPos, target, pos', depth', endPos');
    }
  }

  /** Where the corrected loop breaks, the scan returns the state it has. */
  lemma ScanBreaks(line: string, pos: nat, depth: int, startPos: int, endPos: int)
    requires ScanState(line, pos, depth, startPos, endPos)
    requires (Find(line, Open, pos) < 0 && Find(line, Close, pos) < 0) || (startPos >= 0 && depth == 0)
    ensures Scan(line, pos, depth, startPos, endPos) == (startPos, endPos)
  {
    assert Scan(line, pos, depth, startPos, endPos)
        == ScanStep(line, pos, Find(line, Open, pos), Find(line, Close, pos), depth, startPos, endPos);
  }

  /** A `}}` met before any `{{`: the scan stops with nothing found. */
  lemma ScanStrayClose(line: string, pos: nat, depth: int, startPos: int, endPos: int)
    requires ScanState(line, pos, depth, startPos, endPos) && startPos < 0
    requires var start, end := Find(line, Open, pos), Find(line, Close, pos);
      end >= 0 && !(start >= 0 && start < end)
    ensures Scan(line, pos, depth, startPos, endPos) == (startPos, endPos)
  {
    var start, end := Find(line, Open, pos), Find(line, Close, pos);
    OpenCloseDiffer(line, start);
    assert Scan(line, pos, depth, startPos, endPos) == ScanStep(line, pos, start, end, depth, startPos, endPos);
  }

  /** A `{{` met first: one level deeper, and `start_pos` set if unset; the
      scan from the new state gives the same result. */
  lemma ScanOpens(line: string, pos: nat, depth: int, startPos: int, endPos: int, target: (int, int),
                  pos': nat, depth': int, startPos': int)
    requires ScanState(line, pos, depth, startPos, endPos) && Scan(line, pos, depth, startPos, endPos) == target
    requires var start, end := Find(line, Open, pos), Find(line, Close, pos);
      !(start < 0 && end < 0) && !(startPos >= 0 && depth == 0) && (end < 0 || (start >= 0 && start < end)) &&
      pos' == start + |Open| && depth' == depth + 1 && startPos' == (if startPos < 0 then start else startPos)
    ensures ScanState(line, pos', depth', startPos', endPos) && Scan(line, pos', depth', startPos', endPos) == target
  {
    var start, end := Find(line, Open, pos), Find(line, Close, pos);
    OpenCloseDiffer(line, start);
    assert Scan(line, pos, depth, startPos, endPos) == ScanStep(line, pos, start, end, depth, startPos, endPos);
  }

  /** A `}}` met first once a template is open: one level up, and `end_pos`
      moves past it; the scan from the new state gives the same result. */
  lemma ScanCloses(line: string, pos: nat, depth: int, startPos: int, endPos: int, target: (int, int),
                   pos': nat, depth': int, endPos': int)
    requires ScanState(line, pos, depth, startPos, endPos) && Scan(line, pos, depth, startPos, endPos) == target
    requires startPos >= 0 && depth != 0
    requires var start, end := Find(line, Open, pos), Find(line, Close, pos);
      !(end < 0 || (start >= 0 && start < end)) &&
      pos' == end + |Close| && depth' == depth - 1 && endPos' == pos'
    ensures ScanState(line, pos', depth', startPos, endPos') && Scan(line, pos', depth', startPos, endPos') == target
  {
    var start, end := Find(line, Open, pos), Find(line, Close, pos);
    OpenCloseDiffer(line, start);
    assert Scan(line, pos, depth, startPos, endPos) == ScanStep(line, pos, start, end, depth, startPos, endPos);
  }

  /** `_remove_templates` (corrected): scan, cut the span, go again. */
  method StripTemplates(line: string) returns (r: string)
    ensures r == RemoveTemplates(line)
    decreases |line|
  {
    var startPos, endPos := ScanTemplates(line);
    if startPos < 0 || endPos < 0 {
      return line;
    }
    var final := line[..startPos] + line[endPos..];
    r := StripTemplates(final);
  }

  /** The scanning loop as written: a stray `}}` still counts. */
  method ScanTemplatesAsWritten(line: string) returns (startPos: int, endPos: int)
    ensures (startPos, endPos) == ScanAsWritten(line, 0, 0, -1, -1)
  {
    ghost var target := ScanAsWritten(line, 0, 0, -1, -1);
    var pos, depth := 0, 0;
    startPos, endPos := -1, -1;
    while true
      invariant pos <= |line| && -1 <= startPos <= |line| && -1 <= endPos <= |line|
      invariant ScanAsWritten(line, pos, depth, startPos, endPos) == target
      decreases |line| - pos
    {
      var start := Find(line, Open, pos);
      var end := Find(line, Close, pos);
      OpenCloseDiffer(line, start);
      if start < 0 && end < 0 {
        AsWrittenBreaks(line, pos, depth, startPos, endPos);
        break;
      }
      if startPos >= 0 && depth == 0 {
        AsWrittenBreaks(line, pos, depth, startPos, endPos);
        break;
      }
      ghost var pos0, depth0, startPos0, endPos0 := pos, depth, startPos, endPos;
      if end < 0 || (start >= 0 && start < end) {
        pos := start + |Open|;
        depth := depth + 1;
        if startPos < 0 {
          startPos := start;
        }
      } else if start < 0 || start > end {
        pos := end + |Close|;
        endPos := pos;
        depth := depth - 1;
      } else {
        assert false;
      }
      AsWrittenSteps(line, pos0, depth0, startPos0, endPos0, target, pos, depth, startPos, endPos);
    }
  }

  /** Where the loop as written breaks, it returns the state it has. */
  lemma AsWrittenBreaks(line: string, pos: nat, depth: int, startPos: int, endPos: int)
    requires pos <= |line| && -1 <= startPos <= |line| && -1 <= endPos <= |line|
    requires (Find(line, Open, pos) < 0 && Find(line, Close, pos) < 0) || (startPos >= 0 && depth == 0)
    ensures ScanAsWritten(line, pos, depth, startPos, endPos) == (startPos, endPos)
  {
    assert ScanAsWritten(line, pos, depth, startPos, endPos)
        == ScanStepAsWritten(line, pos, Find(line, Open, pos), Find(line, Close, pos), depth, startPos, endPos);
  }

  /** One iteration of the loop as written keeps the scan's result. */
  lemma AsWrittenSteps(line: string, pos: nat, depth: int, startPos: int, endPos: int, target: (int, int),
                       pos': nat, depth': int, startPos': int, endPos': int)
    requires pos <= |line| && -1 <= startPos <= |line| && -1 <= endPos <= |line|
    requires ScanAsWritten(line, pos, depth, startPos, endPos) == target
    requires var start, end := Find(line, Open, pos), Find(line, Close, pos);
      var opens := end < 0 || (start >= 0 && start < end);
      !(start < 0 && end < 0) && !(startPos >= 0 && depth == 0) &&
      pos' == (if opens then start + |Open| else end + |Close|) &&
      depth' == (if opens then depth + 1 else depth - 1) &&
      startPos' == (if opens && startPos < 0 then start else startPos) &&
      endPos' == (if opens then endPos else pos')
    ensures pos < pos' <= |line| && -1 <= startPos' <= |line| && -1 <= endPos' <= |line|
    ensures ScanAsWritten(line, pos', depth', startPos', endPos') == target
  {
    var start, end := Find(line, Open, pos), Find(line, Close, pos);
    OpenCloseDiffer(line, start);
    assert ScanAsWritten(line, pos, depth, startPos, endPos)
        == ScanStepAsWritten(line, pos, start, end, depth, startPos, endPos);
  }

  /** `_remove_templates` as written, with the recursion budget `fuel`:
      `None` is the `RecursionError`. */
  method StripTemplatesAsWritten(line: string, fuel: nat) returns (r: Option<string>)
    ensures r == RemoveTemplatesAsWritten(line, fuel)
    decreases fuel
  {
    var startPos, endPos := ScanTemplatesAsWritten(line);
    if startPos < 0 || endPos < 0 {
      return Some(line);
    }
    var final := line[..startPos] + line[endPos..];
    if fuel == 0 {
      RemoveAfterCut(line, final, fuel, 0);
      return None;
    }
    var f: nat := fuel - 1;
    RemoveAfterCut(line, final, fuel, f);
    r := StripTemplatesAsWritten(final, f);
  }

  /** A line with no `{{` is returned unchanged. */
  lemma TemplatesWithoutOpenKept(line: string)
    requires '{' !in line
    ensures RemoveTemplates(line) == line
  {
    FindNoHead(line, Open, 0);
    ScanNoOpen(line, 0);
  }

  lemma ScanNoOpen(line: string, pos: nat)
    requires pos <= |line| && Find(line, Open, pos) < 0
    ensures Scan(line, pos, 0, -1, -1) == (-1, -1)
  {
    assert Scan(line, pos, 0, -1, -1) == ScanStep(line, pos, -1, Find(line, Close, pos), 0, -1, -1);
  }

  /** A line with no `}}` is returned unchanged. */
  lemma TemplatesWithoutCloseKept(line: string)
    requires '}' !in line
    ensures RemoveTemplates(line) == line
  {
    ScanNoClose(line, 0, 0, -1, -1);
  }

  lemma {:induction false} ScanNoClose(line: string, pos: nat, depth: int, startPos: int, endPos: int)
    requires '}' !in line
    requires ScanState(line, pos, depth, startPos, endPos) && endPos == -1
    ensures Scan(line, pos, depth, startPos, endPos).1 == -1
    decreases |line| - pos
  {
    FindNoHead(line, Close, pos);
    var start := Find(line, Open, pos);
    assert Scan(line, pos, depth, startPos, endPos) == ScanStep(line, pos, start, -1, depth, startPos, endPos);
    if start >= 0 && !(startPos >= 0 && depth == 0) {
      ScanNoClose(line, start + |Open|, depth + 1, if startPos < 0 then start else startPos, endPos);
    }
  }

  // Balanced templates, as a tree of brace-free text and nested templates.

  datatype Piece = Text(text: string) | Nested(inner: seq<Piece>)

  predicate BraceFree(t: string) {
    '{' !in t && '}' !in t
  }

  /** Every text piece, at every depth, is brace-free. */
  predicate WellFormed(ps: seq<Piece>)
    decreases ps
  {
    ps == [] ||
    ((match ps[0]
      case Text(t) => BraceFree(t)
      case Nested(inner) => WellFormed(inner))
     && WellFormed(ps[1..]))
  }

  /** The text a sequence of pieces stands for; `Nested` is one `{{...}}`. */
  function Render(ps: seq<Piece>): string
    decreases ps
  {
    if ps == [] then []
    else
      (match ps[0]
       case Text(t) => t
       case Nested(inner) => Open + Render(inner) + Close) + Render(ps[1..])
  }

  /** Stretches without any brace do not move the scan. */
  lemma ScanSkipsPlain(line: string, a: nat, b: nat, depth: int, startPos: int, endPos: int)
    requires a <= b <= |line|
    requires forall j :: a <= j < b ==> line[j] != '{' && line[j] != '}'
    requires startPos >= 0 && startPos + |Open| <= a && depth >= 1
    requires endPos >= 0 ==> startPos + |Open| + |Close| <= endPos <= a
    requires endPos < 0 ==> endPos == -1
    ensures Scan(line, a, depth, startPos, endPos) == Scan(line, b, depth, startPos, endPos)
  {
    NoOccurrenceWithoutHead(line, Open, a, b);
    NoOccurrenceWithoutHead(line, Close, a, b);
    FindSame(line, Open, a, b);
    FindSame(line, Close, a, b);
  }

  /** The scan is inside an open template (`start_pos` set, depth positive). */
  predicate Inside(pos: int, depth: int, startPos: int, endPos: int) {
    startPos >= 0 && startPos + |Open| <= pos && depth >= 1 &&
    (endPos >= 0 ==> startPos + |Open| + |Close| <= endPos <= pos) &&
    (endPos < 0 ==> endPos == -1)
  }

  /** Scanning a well-formed run of pieces followed by `}}` closes exactly
      the template that was open, whatever nests inside; `q` is where the
      scan stands afterwards. */
  lemma {:induction false} ScanPieces(line: string, pos: nat, ps: seq<Piece>, q: int, depth: int, startPos: int, endPos: int)
    requires WellFormed(ps)
    requires q == pos + |Render(ps)| + |Close| <= |line| && line[pos..q] == Render(ps) + Close
    requires Inside(pos, depth, startPos, endPos)
    ensures Scan(line, pos, depth, startPos, endPos) == Scan(line, q, depth - 1, startPos, q)
    decreases ps, 2
  {
    if ps == [] {
      ScanAtClose(line, pos, q, depth, startPos, endPos);
    } else if ps[0].Text? {
      ScanPiecesText(line, pos, ps, q, depth, startPos, endPos);
    } else {
      ScanPiecesNested(line, pos, ps, q, depth, startPos, endPos);
    }
  }

  lemma {:induction false} ScanPiecesText(line: string, pos: nat, ps: seq<Piece>, q: int, depth: int, startPos: int, endPos: int)
    requires ps != [] && ps[0].Text? && WellFormed(ps)
    requires q == pos + |Render(ps)| + |Close| <= |line| && line[pos..q] == Render(ps) + Close
    requires Inside(pos, depth, startPos, endPos)
    ensures Scan(line, pos, depth, startPos, endPos) == Scan(line, q, depth - 1, startPos, q)
    decreases ps, 1
  {
    var t := ps[0].text;
    var rest := Render(ps[1..]);
    var m := pos + |t|;
    assert Scan(line, pos, depth, startPos, endPos) == Scan(line, m, depth, startPos, endPos) by {
      assert Render(ps) + Close == t + (rest + Close);
      SplitSliceAt(line, pos, m, q, t, rest + Close);
      ScanSkipsText(line, pos, t, m, depth, startPos, endPos);
    }
    assert Scan(line, m, depth, startPos, endPos) == Scan(line, q, depth - 1, startPos, q) by {
      assert Render(ps) + Close == t + (rest + Close);
      SplitSliceAt(line, pos, m, q, t, rest + Close);
      ScanPieces(line, m, ps[1..], q, depth, startPos, endPos);
    }
  }

  /** Brace-free text inside a template does not move the scan. */
  lemma ScanSkipsText(line: string, pos: nat, t: string, m: int, depth: int, startPos: int, endPos: int)
    requires BraceFree(t) && m == pos + |t| <= |line| && line[pos..m] == t
    requires Inside(pos, depth, startPos, endPos)
    ensures Scan(line, pos, depth, startPos, endPos) == Scan(line, m, depth, startPos, endPos)
  {
    forall j | pos <= j < m ensures line[j] != '{' && line[j] != '}' {
      assert line[j] == line[pos..m][j - pos];
    }
    ScanSkipsPlain(line, pos, m, depth, startPos, endPos);
  }

  lemma {:induction false} ScanPiecesNested(line: string, pos: nat, ps: seq<Piece>, q: int, depth: int, startPos: int, endPos: int)
    requires ps != [] && ps[0].Nested? && WellFormed(ps)
    requires q == pos + |Render(ps)| + |Close| <= |line| && line[pos..q] == Render(ps) + Close
    requires Inside(pos, depth, startPos, endPos)
    ensures Scan(line, pos, depth, startPos, endPos) == Scan(line, q, depth - 1, startPos, q)
    decreases ps, 1
  {
    var inner := ps[0].inner;
    var a := pos + |Open|;
    var m := a + |Render(inner)| + |Close|;
    NestedSlices(line, pos, ps, a, m, q);
    ScanAtOpen(line, pos, a, depth, startPos, endPos);
    ScanPiecesInner(line, pos, ps, a, m, depth, startPos, endPos);
    ScanPiecesAfterInner(line, pos, ps, m, q, depth, startPos);
  }

  lemma {:induction false} ScanPiecesInner(line: string, pos: nat, ps: seq<Piece>, a: nat, m: int, depth: int, startPos: int, endPos: int)
    requires ps != [] && ps[0].Nested? && WellFormed(ps)
    requires a == pos + |Open| && m == a + |Render(ps[0].inner)| + |Close| <= |line|
    requires line[a..m] == Render(ps[0].inner) + Close
    requires Inside(pos, depth, startPos, endPos)
    ensures Scan(line, a, depth + 1, startPos, endPos) == Scan(line, m, depth, startPos, m)
    decreases ps, 0
  {
    ScanPieces(line, a, ps[0].inner, m, depth + 1, startPos, endPos);
  }

  lemma {:induction false} ScanPiecesAfterInner(line: string, pos: nat, ps: seq<Piece>, m: nat, q: int, depth: int, startPos: int)
    requires ps != [] && WellFormed(ps)
    requires startPos >= 0 && startPos + |Open| + |Close| <= m && depth >= 1
    requires q == m + |Render(ps[1..])| + |Close| <= |line| && line[m..q] == Render(ps[1..]) + Close
    ensures Scan(line, m, depth, startPos, m) == Scan(line, q, depth - 1, startPos, q)
    decreases ps, 0
  {
    ScanPieces(line, m, ps[1..], q, depth, startPos, m);
  }

  /** Where a nested template and what follows it sit in the line. */
  lemma NestedSlices(line: string, pos: nat, ps: seq<Piece>, a: int, m: int, q: int)
    requires ps != [] && ps[0].Nested?
    requires q == pos + |Render(ps)| + |Close| <= |line| && line[pos..q] == Render(ps) + Close
    requires a == pos + |Open| && m == a + |Render(ps[0].inner)| + |Close|
    ensures line[pos..a] == Open && line[a..m] == Render(ps[0].inner) + Close
    ensures line[m..q] == Render(ps[1..]) + Close
  {
    var ri := Render(ps[0].inner);
    var rest := Render(ps[1..]);
    var tail := (ri + Close) + (rest + Close);
    RenderNested(ps);
    SplitSliceAt(line, pos, a, q, Open, tail);
    SplitSliceAt(line, a, m, q, ri + Close, rest + Close);
  }

  lemma RenderNested(ps: seq<Piece>)
    requires ps != [] && ps[0].Nested?
    ensures Render(ps) + Close == Open + ((Render(ps[0].inner) + Close) + (Render(ps[1..]) + Close))
  {
    var ri := Render(ps[0].inner);
    var rest := Render(ps[1..]);
    calc {
      Render(ps) + Close;
      (((Open + ri) + Close) + rest) + Close;
      { ConcatAssoc((Open + ri) + Close, rest, Close); }
      ((Open + ri) + Close) + (rest + Close);
      { ConcatAssoc(Open, ri, Close); }
      (Open + (ri + Close)) + (rest + Close);
      { ConcatAssoc(Open, ri + Close, rest + Close); }
      Open + ((ri + Close) + (rest + Close));
    }
  }

  /** Inside a template, a `}}` closes one level and becomes `end_pos`. */
  lemma ScanAtClose(line: string, pos: nat, q: int, depth: int, startPos: int, endPos: int)
    requires q == pos + |Close| <= |line| && line[pos..q] == Close
    requires Inside(pos, depth, startPos, endPos)
    ensures Scan(line, pos, depth, startPos, endPos) == Scan(line, q, depth - 1, startPos, q)
  {
    FindIs(line, Close, pos, pos);
    OpenCloseDiffer(line, pos);
    assert Scan(line, pos, depth, startPos, endPos)
        == ScanStep(line, pos, Find(line, Open, pos), pos, depth, startPos, endPos);
  }

  /** Inside a template, a `{{` opens one more level. */
  lemma ScanAtOpen(line: string, pos: nat, a: int, depth: int, startPos: int, endPos: int)
    requires a == pos + |Open| <= |line| && line[pos..a] == Open
    requires Inside(pos, depth, startPos, endPos)
    ensures Scan(line, pos, depth, startPos, endPos) == Scan(line, a, depth + 1, startPos, endPos)
  {
    FindIs(line, Open, pos, pos);
    OpenCloseDiffer(line, pos);
    assert Scan(line, pos, depth, startPos, endPos)
        == ScanStep(line, pos, pos, Find(line, Close, pos), depth, startPos, endPos);
  }

  /** A `}}` that starts before a `{{` ends before it too. */
  lemma CloseBeforeOpen(line: string, end: int, k: int)
    requires OccursAt(line, Close, end) && OccursAt(line, Open, k) && end < k
    ensures end + |Close| <= k
  {
    OccursChars(line, Close, end);
    OccursChars(line, Open, k);
    assert line[end + 1] == '}' && line[k] == '{';
  }

  /** The first `{{`, with no `}}` before it, opens the template. */
  lemma FirstOpenStep(line: string, pos: nat, k: int, end: int)
    requires pos <= k && Find(line, Open, pos) == k
    requires end == Find(line, Close, pos) && !(end >= 0 && end < k)
    ensures Scan(line, pos, 0, -1, -1) == Scan(line, k + |Open|, 1, k, -1)
  {
    OpenCloseDiffer(line, k);
    assert Scan(line, pos, 0, -1, -1) == ScanStep(line, pos, k, end, 0, -1, -1);
  }

  /** The first template of a line, nested ones included, is cut in one pass. */
  lemma TemplateCut(pre: string, inner: seq<Piece>, post: string)
    requires BraceFree(pre) && WellFormed(inner)
    ensures TemplateStep(pre + Open + Render(inner) + Close + post) == Cut(pre + post)
  {
    var line := pre + Open + Render(inner) + Close + post;
    var q := |pre| + |Open| + |Render(inner)| + |Close|;
    TemplateScan(pre, inner, post, line, q);
    assert line[..|pre|] == pre;
    assert line[q..] == post;
  }

  /** The scan of such a line reports the first `{{` and the `}}` matching it. */
  lemma TemplateScan(pre: string, inner: seq<Piece>, post: string, line: string, q: int)
    requires BraceFree(pre) && WellFormed(inner)
    requires line == pre + Open + Render(inner) + Close + post
    requires q == |pre| + |Open| + |Render(inner)| + |Close|
    ensures Scan(line, 0, 0, -1, -1) == (|pre|, q)
  {
    var a := |pre| + |Open|;
    ScanReachesFirstOpen(pre, Open + Render(inner) + Close + post, line);
    ScanClosesFirstOpen(pre, inner, post, line, a, q);
    assert Scan(line, q, 0, |pre|, q)
        == ScanStep(line, q, Find(line, Open, q), Find(line, Close, q), 0, |pre|, q);
  }

  /** Brace-free text before the first `{{` is passed over. */
  lemma ScanReachesFirstOpen(pre: string, rest: string, line: string)
    requires BraceFree(pre) && StartsWith(rest, Open) && line == pre + rest
    ensures Scan(line, 0, 0, -1, -1) == Scan(line, |pre| + |Open|, 1, |pre|, -1)
  {
    FindAfter(pre, rest, Open);
    CharAbsentBefore(line, pre, rest, '}');
    NoOccurrenceWithoutHead(line, Close, 0, |pre|);
    FirstOpenStep(line, 0, |pre|, Find(line, Close, 0));
  }

  /** From just inside the first `{{`, the scan ends on its matching `}}`. */
  lemma ScanClosesFirstOpen(pre: string, inner: seq<Piece>, post: string, line: string, a: nat, q: int)
    requires WellFormed(inner)
    requires line == pre + Open + Render(inner) + Close + post
    requires a == |pre| + |Open| && q == a + |Render(inner)| + |Close|
    ensures Scan(line, a, 1, |pre|, -1) == Scan(line, q, 0, |pre|, q)
  {
    assert line[a..q] == Render(inner) + Close;
    ScanPieces(line, a, inner, q, 1, |pre|, -1);
  }

  // The scan as written and the corrected one.

  /** Once a template has opened, the two scans take the same steps. */
  lemma {:induction false} ScansAgreeOnceOpen(line: string, pos: nat, depth: int, startPos: int, endPos: int)
    requires ScanState(line, pos, depth, startPos, endPos) && startPos >= 0
    ensures ScanAsWritten(line, pos, depth, startPos, endPos) == Scan(line, pos, depth, startPos, endPos)
    decreases |line| - pos
  {
    var start := Find(line, Open, pos);
    var end := Find(line, Close, pos);
    OpenCloseDiffer(line, start);
    if (start >= 0 || end >= 0) && depth != 0 {
      var opens := end < 0 || (start >= 0 && start < end);
      var next := if opens then start + |Open| else end + |Close|;
      var nextDepth := if opens then depth + 1 else depth - 1;
      var nextEnd := if opens then endPos else end + |Close|;
      AgreeStep(line, pos, depth, startPos, endPos, next, nextDepth, nextEnd);
      ScansAgreeOnceOpen(line, next, nextDepth, startPos, nextEnd);
    } else {
      AgreeStop(line, pos, depth, startPos, endPos);
    }
  }

  /** One step of the loop once a template is open, as written and corrected. */
  lemma AgreeStep(line: string, pos: nat, depth: int, startPos: int, endPos: int, next: nat, nextDepth: int, nextEnd: int)
    requires ScanState(line, pos, depth, startPos, endPos) && startPos >= 0 && depth != 0
    requires Find(line, Open, pos) >= 0 || Find(line, Close, pos) >= 0
    requires var start, end := Find(line, Open, pos), Find(line, Close, pos);
      var opens := end < 0 || (start >= 0 && start < end);
      next == (if opens then start + |Open| else end + |Close|) &&
      nextDepth == (if opens then depth + 1 else depth - 1) &&
      nextEnd == (if opens then endPos else end + |Close|)
    ensures pos < next && ScanState(line, next, nextDepth, startPos, nextEnd)
    ensures ScanAsWritten(line, pos, depth, startPos, endPos) == ScanAsWritten(line, next, nextDepth, startPos, nextEnd)
    ensures Scan(line, pos, depth, startPos, endPos) == Scan(line, next, nextDepth, startPos, nextEnd)
  {
    var start := Find(line, Open, pos);
    var end := Find(line, Close, pos);
    AsWrittenSteps(line, pos, depth, startPos, endPos, ScanAsWritten(line, pos, depth, startPos, endPos),
                   next, nextDepth, startPos, nextEnd);
    if end < 0 || (start >= 0 && start < end) {
      ScanOpens(line, pos, depth, startPos, endPos, Scan(line, pos, depth, startPos, endPos), next, nextDepth, startPos);
    } else {
      ScanCloses(line, pos, depth, startPos, endPos, Scan(line, pos, depth, startPos, endPos), next, nextDepth, nextEnd);
    }
  }

  /** Where the loop breaks once a template is open, both versions break. */
  lemma AgreeStop(line: string, pos: nat, depth: int, startPos: int, endPos: int)
    requires ScanState(line, pos, depth, startPos, endPos) && startPos >= 0
    requires !((Find(line, Open, pos) >= 0 || Find(line, Close, pos) >= 0) && depth != 0)
    ensures ScanAsWritten(line, pos, depth, startPos, endPos) == Scan(line, pos, depth, startPos, endPos)
  {
    var start := Find(line, Open, pos);
    var end := Find(line, Close, pos);
    assert ScanAsWritten(line, pos, depth, startPos, endPos)
        == ScanStepAsWritten(line, pos, start, end, depth, startPos, endPos);
    assert Scan(line, pos, depth, startPos, endPos) == ScanStep(line, pos, start, end, depth, startPos, endPos);
  }

  /** No `}}` before the first `{{`. */
  predicate NoStrayClose(line: string) {
    Find(line, Close, 0) < 0 || 0 <= Find(line, Open, 0) < Find(line, Close, 0)
  }

  /** On a line whose first `}}` does not come before its first `{{`, a pass
      of the code as written and a corrected pass cut the same span. */
  lemma AsWrittenAgrees(line: string)
    requires NoStrayClose(line)
    ensures TemplateStepAsWritten(line) == TemplateStep(line)
  {
    var start := Find(line, Open, 0);
    var end := Find(line, Close, 0);
    OpenCloseDiffer(line, start);
    assert ScanAsWritten(line, 0, 0, -1, -1) == ScanStepAsWritten(line, 0, start, end, 0, -1, -1);
    assert Scan(line, 0, 0, -1, -1) == ScanStep(line, 0, start, end, 0, -1, -1);
    if start >= 0 {
      ScansAgreeOnceOpen(line, start + |Open|, 1, start, -1);
    }
  }

  /** No pass on the way to the result meets a `}}` ahead of every `{{`. */
  predicate StrayFreeChain(line: string)
    decreases |line|
  {
    NoStrayClose(line) &&
    match TemplateStep(line)
    case Done => true
    case Cut(next) => StrayFreeChain(next)
  }

  /** On such a line the code as written, given a recursion budget of at
      least the line's length, ends with the corrected result. */
  lemma {:induction false} AsWrittenAgreesOnChain(line: string, fuel: nat)
    requires StrayFreeChain(line) && |line| <= fuel
    ensures RemoveTemplatesAsWritten(line, fuel) == Some(RemoveTemplates(line))
    decreases |line|
  {
    var step := TemplateStep(line);
    ChainStep(line, step);
    AsWrittenAgrees(line);
    if step.Cut? {
      AsWrittenAgreesOnChain(step.next, fuel - 1);
      RemoveAfterCut(line, step.next, fuel, fuel - 1);
    } else {
      assert RemoveTemplatesAsWritten(line, fuel) == AfterStepAsWritten(line, Done, fuel);
    }
  }

  /** One pass along such a line, unfolded. */
  lemma ChainStep(line: string, step: Step)
    requires step == TemplateStep(line) && StrayFreeChain(line)
    ensures NoStrayClose(line)
    ensures step.Done? ==> RemoveTemplates(line) == line
    ensures step.Cut? ==> StrayFreeChain(step.next) && RemoveTemplates(line) == RemoveTemplates(step.next)
                          && |step.next| < |line|
  {
  }

  /** The divergence: a `}}` before a `{{` gives `end_pos < start_pos`, the
      cut `line[:start_pos] + line[end_pos:]` repeats `b`, and the same shape
      comes back with a longer line, so the recursion never ends. */
  lemma {:induction false} TemplatesAsWrittenDiverge(a: string, b: string, c: string, fuel: nat)
    requires BraceFree(a) && BraceFree(b)
    ensures RemoveTemplatesAsWritten(a + Close + b + Open + c, fuel) == None
    decreases fuel
  {
    if fuel > 0 {
      var bb := b + b;
      var f: nat := fuel - 1;
      BraceFreeTwice(b);
      TemplatesAsWrittenDiverge(a, bb, c, f);
      DivergeUnroll(a, b, c, fuel, f);
    } else {
      DivergeUnroll(a, b, c, 0, 0);
    }
  }

  lemma BraceFreeTwice(b: string)
    requires BraceFree(b)
    ensures BraceFree(b + b)
  {
  }

  /** One unrolling of the recursion on `a}}b{{c`. */
  lemma DivergeUnroll(a: string, b: string, c: string, fuel: nat, f: nat)
    requires BraceFree(a) && BraceFree(b)
    requires fuel > 0 ==> f == fuel - 1 && RemoveTemplatesAsWritten(a + Close + (b + b) + Open + c, f) == None
    ensures RemoveTemplatesAsWritten(a + Close + b + Open + c, fuel) == None
  {
    DivergeStep(a, b, c);
    RemoveAfterCut(a + Close + b + Open + c, a + Close + (b + b) + Open + c, fuel, f);
  }

  lemma RemoveAfterCut(line: string, next: string, fuel: nat, f: nat)
    requires TemplateStepAsWritten(line) == Cut(next)
    requires fuel > 0 ==> f == fuel - 1
    ensures RemoveTemplatesAsWritten(line, fuel) == if fuel == 0 then None else RemoveTemplatesAsWritten(next, f)
  {
    assert RemoveTemplatesAsWritten(line, fuel) == AfterStepAsWritten(line, Cut(next), fuel);
  }

  /** One pass on `a}}b{{c` cuts `line[:start_pos] + line[end_pos:]` with
      `end_pos` before `start_pos`, which gives `a}}bb{{c`. */
  lemma DivergeStep(a: string, b: string, c: string)
    requires BraceFree(a) && BraceFree(b)
    ensures TemplateStepAsWritten(a + Close + b + Open + c) == Cut(a + Close + (b + b) + Open + c)
  {
    var line := a + Close + b + Open + c;
    var p := |a| + |Close|;
    var k := p + |b|;
    var head := a + Close + b;
    var tail := b + Open + c;
    assert TemplateStepAsWritten(line) == Cut(head + tail) by {
      DivergeScan(a, b, c, line, p, k);
      assert line[..k] == head;
      assert line[p..] == tail;
    }
    DivergeJoin(a + Close, b, Open + c);
    ConcatAssoc(b, Open, c);
    ConcatAssoc(a + Close + (b + b), Open, c);
  }

  /** The text the cut keeps, regrouped. */
  lemma DivergeJoin(x: string, b: string, y: string)
    ensures (x + b) + (b + y) == (x + (b + b)) + y
  {
    ConcatAssoc(x, b, b + y);
    ConcatAssoc(b, b, y);
    ConcatAssoc(x, b + b, y);
  }

  /** The scan as written on `a}}b{{c`: the `}}` sets `end_pos` and drops the
      counter to -1, the `{{` brings it back to 0 and sets `start_pos`. */
  lemma DivergeScan(a: string, b: string, c: string, line: string, p: int, k: int)
    requires BraceFree(a) && BraceFree(b)
    requires line == a + Close + b + Open + c && p == |a| + |Close| && k == p + |b|
    ensures ScanAsWritten(line, 0, 0, -1, -1) == (k, p)
  {
    DivergeFinds(a, b, c, line, p, k);
    var end := Find(line, Close, p);
    assert ScanAsWritten(line, 0, 0, -1, -1) == ScanAsWritten(line, p, -1, -1, p) by {
      assert ScanAsWritten(line, 0, 0, -1, -1) == ScanStepAsWritten(line, 0, k, |a|, 0, -1, -1);
    }
    assert ScanAsWritten(line, p, -1, -1, p) == ScanAsWritten(line, k + |Open|, 0, k, p) by {
      OpenCloseDiffer(line, k);
      assert ScanAsWritten(line, p, -1, -1, p) == ScanStepAsWritten(line, p, k, end, -1, -1, p);
    }
    assert ScanAsWritten(line, k + |Open|, 0, k, p)
        == ScanStepAsWritten(line, k + |Open|, Find(line, Open, k + |Open|), Find(line, Close, k + |Open|), 0, k, p);
  }

  /** Where the two `find` calls land on `a}}b{{c`, from the start and from
      just after the stray `}}`. */
  lemma DivergeFinds(a: string, b: string, c: string, line: string, p: int, k: int)
    requires BraceFree(a) && BraceFree(b)
    requires line == a + Close + b + Open + c && p == |a| + |Close| && k == p + |b|
    ensures Find(line, Open, 0) == k && Find(line, Close, 0) == |a|
    ensures Find(line, Open, p) == k
    ensures Find(line, Close, p) < 0 || Find(line, Close, p) >= k + |Open|
  {
    DivergeFirstOpen(a + Close + b, c, line);
    DivergeFirstClose(a, b + Open + c, line);
    DivergeFindsAfterClose(a, b, c, line, p, k);
  }

  lemma DivergeFirstOpen(x: string, c: string, line: string)
    requires '{' !in x && line == x + Open + c
    ensures Find(line, Open, 0) == |x|
  {
    assert line == x + (Open + c);
    FindAfter(x, Open + c, Open);
  }

  lemma DivergeFirstClose(a: string, y: string, line: string)
    requires BraceFree(a) && line == a + Close + y
    ensures Find(line, Close, 0) == |a|
  {
    assert line == a + (Close + y);
    FindAfter(a, Close + y, Close);
  }

  lemma DivergeFindsAfterClose(a: string, b: string, c: string, line: string, p: int, k: int)
    requires BraceFree(b)
    requires line == a + Close + b + Open + c && p == |a| + |Close| && k == p + |b|
    ensures Find(line, Open, p) == k
    ensures Find(line, Close, p) < 0 || Find(line, Close, p) >= k + |Open|
  {
    assert forall j :: p <= j < k ==> line[j] == b[j - p];
    assert line[k] == '{' && line[k + 1] == '{';
    assert Find(line, Open, p) == k by {
      assert line[k..k + |Open|] == Open;
      FindFirstAt(line, Open, p, k);
    }
    NoOccurrenceWithoutHead(line, Close, p, k + |Open|);
    FindSame(line, Close, p, k + |Open|);
  }

  // Whole lines: every top-level template goes, siblings included.

  /** Cutting the first template and going on with what is left. */
  lemma TemplateSiblings(pre: string, inner: seq<Piece>, mid: string, post: string)
    requires BraceFree(pre) && WellFormed(inner) && Render(inner) == mid
    ensures RemoveTemplates(pre + Open + mid + Close + post) == RemoveTemplates(pre + post)
  {
    TemplateCut(pre, inner, post);
  }

  /** A template holding only text. */
  lemma SingleText(t: string)
    requires BraceFree(t)
    ensures WellFormed([Text(t)]) && Render([Text(t)]) == t
  {
    assert [Text(t)][1..] == [];
  }

  /** Text, then a template, then more pieces. */
  lemma TextThenNested(t: string, inner: seq<Piece>, rest: seq<Piece>, ps: seq<Piece>)
    requires BraceFree(t) && WellFormed(inner) && WellFormed(rest)
    requires ps == [Text(t), Nested(inner)] + rest
    ensures WellFormed(ps)
    ensures Render(ps) == t + (Open + Render(inner) + Close + Render(rest))
  {
    assert ps[1..] == [Nested(inner)] + rest;
    assert ps[1..][1..] == rest;
    assert Render(ps[1..]) == Open + Render(inner) + Close + Render(rest);
  }

  /** A template holding only text goes, and the scan goes on after it. */
  lemma TextTemplateRemoved(pre: string, t: string, post: string)
    requires BraceFree(pre) && BraceFree(t)
    ensures RemoveTemplates(pre + Open + t + Close + post) == RemoveTemplates(pre + post)
  {
    SingleText(t);
    TemplateSiblings(pre, [Text(t)], t, post);
  }

  /** A template with two templates nested inside it goes as a whole, and
      the text around it stays (the shape of
      `Això és un {{ex-us|ca|… {{romanes|XV}} … {{romanes|XVI}}.}} text`). */
  lemma NestedTemplateRemoved(line: string, pre: string, a: string, x: string, b: string, y: string, c: string, post: string)
    requires BraceFree(pre) && '{' !in post
    requires BraceFree(a) && BraceFree(x) && BraceFree(b) && BraceFree(y) && BraceFree(c)
    requires line == pre + Open + (a + (Open + x + Close + (b + (Open + y + Close + c)))) + Close + post
    ensures RemoveTemplates(line) == pre + post
  {
    assert RemoveTemplates(pre + post) == pre + post by {
      NotInConcat('{', pre, post);
      TemplatesWithoutOpenKept(pre + post);
    }
    var inner := NestedPieces(a, x, b, y, c);
    TemplateSiblings(pre, inner, a + (Open + x + Close + (b + (Open + y + Close + c))), post);
  }

  /** Text, a template, text, a template, text. */
  lemma NestedPieces(a: string, x: string, b: string, y: string, c: string) returns (inner: seq<Piece>)
    requires BraceFree(a) && BraceFree(x) && BraceFree(b) && BraceFree(y) && BraceFree(c)
    ensures WellFormed(inner)
    ensures Render(inner) == a + (Open + x + Close + (b + (Open + y + Close + c)))
  {
    SingleText(x);
    SingleText(y);
    SingleText(c);
    var t2 := [Text(b), Nested([Text(y)])] + [Text(c)];
    TextThenNested(b, [Text(y)], [Text(c)], t2);
    inner := [Text(a), Nested([Text(x)])] + t2;
    TextThenNested(a, [Text(x)], t2, inner);
  }

  /** Two sibling templates around text: both go, the text stays (the shape
      of `{{marca|…}} [[ensumar|Ensumar]] {{q|aspirar}}`). */
  lemma SiblingTemplatesRemoved(line: string, first: string, link: string, second: string)
    requires BraceFree(first) && BraceFree(link) && BraceFree(second)
    requires line == Open + first + Close + link + Open + second + Close
    ensures RemoveTemplates(line) == link
  {
    var rest := link + Open + second + Close + "";
    assert RemoveTemplates(line) == RemoveTemplates(rest) by {
      assert line == "" + Open + first + Close + rest;
      TextTemplateRemoved("", first, rest);
      assert "" + rest == rest;
    }
    assert RemoveTemplates(rest) == link by {
      TextTemplateRemoved(link, second, "");
      assert link + "" == link;
      TemplatesWithoutOpenKept(link);
    }
  }

  /** A `}}` ahead of every `{{` marks the line as malformed: it is
      returned unchanged, template and all. */
  lemma StrayCloseKept(line: string)
    requires !NoStrayClose(line)
    ensures RemoveTemplates(line) == line
  {
    var start := Find(line, Open, 0);
    var end := Find(line, Close, 0);
    OpenCloseDiffer(line, start);
    assert Scan(line, 0, 0, -1, -1) == ScanStep(line, 0, start, end, 0, -1, -1);
  }

  /** `x}} {{y}}`: the stray `}}` keeps the template too. */
  lemma StrayCloseExample(line: string)
    requires line == "x}} {{y}}"
    ensures RemoveTemplates(line) == line
  {
    assert line[1..3] == Close;
    assert Find(line, Close, 0) == 1 by {
      NotAt(line, Close, 0, 0);
      FindIs(line, Close, 0, 1);
    }
    NotAt(line, Open, 0, 0);
    NotAt(line, Open, 1, 0);
    StrayCloseKept(line);
  }
}
