/**
 * The report deduplication engine of src/dedup.py: cut the news section out of a
 * Markdown report, parse its pipe table, pull the article URL out of each title cell,
 * drop the rows whose URL any earlier comment already published, renumber what is left,
 * splice it back and prepend a summary.
 */
module Dedup {
  import opened Wrappers
  import opened Strings

  const NewsSectionTitle: string := "## 📰 AI Regulation News"
  const TitleColumn: string := "제목"
  const NoColumn: string := "No."
  const HeadingPrefix: string := "## "
  const ZeroNewSection: string := "새로운 규제 소식이 0건입니다.\n"

  // ===========================================================================
  // extract_section

  /** The line's stripped form starts with the section title. */
  predicate IsTitleLine(line: string, title: string) {
    title <= Strip(line)
  }

  predicate IsHeading(line: string) {
    HeadingPrefix <= line
  }

  /** A line that closes the section once it has started. */
  predicate EndsSection(line: string, title: string) {
    IsHeading(line) && !IsTitleLine(line, title)
  }

  /** The line test that opens the section. */
  function TitleTest(title: string): string -> bool {
    line => IsTitleLine(line, title)
  }

  /** The line test for a `## ` heading. */
  function HeadingTest(): string -> bool {
    line => IsHeading(line)
  }

  /** An element that closes a span: one passing `isClose` that does not open one anew. */
  function Ends<T>(isOpen: T -> bool, isClose: T -> bool): T -> bool {
    x => isClose(x) && !isOpen(x)
  }

  /** The first index at or after `from` whose element passes `p`, or `|xs|`. */
  function FirstWhere<T>(xs: seq<T>, p: T -> bool, from: nat): (r: nat)
    requires from <= |xs|
    ensures from <= r <= |xs|
    ensures forall k :: from <= k < r ==> !p(xs[k])
    ensures r < |xs| ==> p(xs[r])
    decreases |xs| - from
  {
    if from == |xs| || p(xs[from]) then from else FirstWhere(xs, p, from + 1)
  }

  /** The last index before `e` whose element passes `p`, given that `xs[lo]` does. */
  function LastWhereBefore<T>(xs: seq<T>, p: T -> bool, lo: nat, e: nat): (r: nat)
    requires lo < e <= |xs| && p(xs[lo])
    ensures lo <= r < e && p(xs[r])
    ensures forall k :: r < k < e ==> !p(xs[k])
    decreases e
  {
    if p(xs[e - 1]) then e - 1 else LastWhereBefore(xs, p, lo, e - 1)
  }

  /** Looking one element further back. */
  lemma LastWhereBeforeStep<T>(xs: seq<T>, p: T -> bool, lo: nat, e: nat)
    requires lo < e < |xs| && p(xs[lo])
    ensures LastWhereBefore(xs, p, lo, e + 1) == if p(xs[e]) then e else LastWhereBefore(xs, p, lo, e)
  {
  }

  /**
   * The span that a scan opening at `isOpen` elements and closing at `isClose` ones finds:
   * from after the last opening element before the first closing, non-opening one that
   * follows the first opening element, up to that element (or the end).
   */
  function Span<T>(xs: seq<T>, isOpen: T -> bool, isClose: T -> bool): Option<(nat, nat)> {
    var t := FirstWhere(xs, isOpen, 0);
    if t == |xs| then None
    else
      var e := FirstWhere(xs, Ends(isOpen, isClose), t + 1);
      Some((LastWhereBefore(xs, isOpen, t, e) + 1, e))
  }

  /** The lines `[s, e)` that `extract_section` returns, if it finds a title line. */
  function SectionSpan(lines: seq<string>, title: string): Option<(nat, nat)> {
    Span(lines, TitleTest(title), HeadingTest())
  }

  /**
   * The shape of a span: none without an opening element; otherwise it starts right
   * after an opening element, holds neither an opening nor a closing element, and stops
   * at a closing element that opens nothing, or at the end.
   */
  lemma SpanShape<T>(xs: seq<T>, isOpen: T -> bool, isClose: T -> bool)
    ensures Span(xs, isOpen, isClose).None? <==> forall k :: 0 <= k < |xs| ==> !isOpen(xs[k])
    ensures Span(xs, isOpen, isClose).Some? ==>
      var (s, e) := Span(xs, isOpen, isClose).value;
      && 1 <= s <= e <= |xs|
      && isOpen(xs[s - 1])
      && (forall k :: s <= k < e ==> !isClose(xs[k]) && !isOpen(xs[k]))
      && (e == |xs| || (isClose(xs[e]) && !isOpen(xs[e])))
  {
    var t := FirstWhere(xs, isOpen, 0);
    if t < |xs| {
      var isEnd := Ends(isOpen, isClose);
      var e := FirstWhere(xs, isEnd, t + 1);
      var s := LastWhereBefore(xs, isOpen, t, e) + 1;
      assert forall k :: s <= k < e ==> !isOpen(xs[k]) && !isEnd(xs[k]);
    }
  }

  /**
   * The shape of the section: none without a title line; otherwise it opens right
   * after a title line, holds neither a title line nor a `## ` line, and stops at a
   * `## ` line that is no title line, or at the end of the text.
   */
  lemma SectionSpanShape(lines: seq<string>, title: string)
    ensures SectionSpan(lines, title).None? <==> forall k :: 0 <= k < |lines| ==> !IsTitleLine(lines[k], title)
    ensures SectionSpan(lines, title).Some? ==>
      var (s, e) := SectionSpan(lines, title).value;
      && 1 <= s <= e <= |lines|
      && IsTitleLine(lines[s - 1], title)
      && (forall k :: s <= k < e ==> !IsHeading(lines[k]) && !IsTitleLine(lines[k], title))
      && (e == |lines| || EndsSection(lines[e], title))
  {
    SpanShape(lines, TitleTest(title), HeadingTest());
  }

  /** What `extract_section(md_text, section_title)` returns. */
  function Section(mdText: string, title: string): string {
    var lines := Split(mdText, '\n');
    match SectionSpan(lines, title)
    case None => ""
    case Some((s, e)) => Join(lines[s..e], "\n")
  }

  /**
   * The state of `extract_section`'s scan at element `i`, run to its end: an opening
   * element (re)opens the span after it, a closing one ends an open span, the end of
   * the sequence ends it too.
   */
  function ScanFrom<T>(xs: seq<T>, isOpen: T -> bool, isClose: T -> bool, i: nat, start: Option<nat>): Option<(nat, nat)>
    requires i <= |xs|
    decreases |xs| - i
  {
    if i == |xs| then
      match start
      case None => None
      case Some(s) => Some((s, |xs|))
    else if isOpen(xs[i]) then ScanFrom(xs, isOpen, isClose, i + 1, Some(i + 1))
    else if start.Some? && isClose(xs[i]) then Some((start.value, i))
    else ScanFrom(xs, isOpen, isClose, i + 1, start)
  }

  /** What the scan has learnt by element `i`, in terms of the first opening element `t`. */
  predicate ScanState<T>(xs: seq<T>, isOpen: T -> bool, isClose: T -> bool, t: nat, i: nat, start: Option<nat>) {
    && t == FirstWhere(xs, isOpen, 0)
    && i <= |xs|
    && (start.None? <==> t >= i)
    && (start.Some? ==> t < i && FirstWhere(xs, Ends(isOpen, isClose), t + 1) >= i
                        && start.value == LastWhereBefore(xs, isOpen, t, i) + 1)
  }

  /** The scan computes the span that `Span` describes. */
  lemma {:induction false} ScanFromIsSpan<T>(xs: seq<T>, isOpen: T -> bool, isClose: T -> bool, t: nat, i: nat, start: Option<nat>)
    requires ScanState(xs, isOpen, isClose, t, i, start)
    ensures ScanFrom(xs, isOpen, isClose, i, start) == Span(xs, isOpen, isClose)
    decreases |xs| - i, 1
  {
    if i == |xs| {
      ScanEndIsSpan(xs, isOpen, isClose, t, start);
    } else if !isOpen(xs[i]) && start.Some? && isClose(xs[i]) {
      ScanCloseIsSpan(xs, isOpen, isClose, t, i, start.value);
    } else {
      ScanPastIsSpan(xs, isOpen, isClose, t, i, start);
    }
  }

  /** An element the scan steps over: an opening one, or any element that does not end an open span. */
  lemma {:induction false} ScanPastIsSpan<T>(xs: seq<T>, isOpen: T -> bool, isClose: T -> bool, t: nat, i: nat, start: Option<nat>)
    requires ScanState(xs, isOpen, isClose, t, i, start) && i < |xs|
    requires !isOpen(xs[i]) ==> !(start.Some? && isClose(xs[i]))
    ensures ScanFrom(xs, isOpen, isClose, i, start) == Span(xs, isOpen, isClose)
    decreases |xs| - i, 0
  {
    var next := if isOpen(xs[i]) then Some(i + 1) else start;
    if isOpen(xs[i]) {
      ScanOpenStep(xs, isOpen, isClose, t, i, start);
    } else {
      ScanOtherStep(xs, isOpen, isClose, t, i, start);
    }
    ScanFromIsSpan(xs, isOpen, isClose, t, i + 1, next);
    ScanStepIsSpan(xs, isOpen, isClose, i, start, next);
  }

  /** An element the scan steps over leaves its outcome to the rest of the sequence. */
  lemma ScanStepIsSpan<T>(xs: seq<T>, isOpen: T -> bool, isClose: T -> bool, i: nat, start: Option<nat>, next: Option<nat>)
    requires i < |xs|
    requires next == if isOpen(xs[i]) then Some(i + 1) else start
    requires !isOpen(xs[i]) ==> !(start.Some? && isClose(xs[i]))
    requires ScanFrom(xs, isOpen, isClose, i + 1, next) == Span(xs, isOpen, isClose)
    ensures ScanFrom(xs, isOpen, isClose, i, start) == Span(xs, isOpen, isClose)
  {
  }

  /** At the end of the sequence the scan reports what it holds. */
  lemma ScanEndIsSpan<T>(xs: seq<T>, isOpen: T -> bool, isClose: T -> bool, t: nat, start: Option<nat>)
    requires ScanState(xs, isOpen, isClose, t, |xs|, start)
    ensures ScanFrom(xs, isOpen, isClose, |xs|, start) == Span(xs, isOpen, isClose)
  {
    if start.Some? {
      ScanFindsSpan(xs, isOpen, isClose, t, start.value, |xs|);
    }
  }

  /** A closing element after an opened span ends it. */
  lemma ScanCloseIsSpan<T>(xs: seq<T>, isOpen: T -> bool, isClose: T -> bool, t: nat, i: nat, s: nat)
    requires ScanState(xs, isOpen, isClose, t, i, Some(s)) && i < |xs|
    requires !isOpen(xs[i]) && isClose(xs[i])
    ensures ScanFrom(xs, isOpen, isClose, i, Some(s)) == Span(xs, isOpen, isClose)
  {
    ScanFindsSpan(xs, isOpen, isClose, t, s, i);
  }

  /** An opening element moves the start to the element after it. */
  lemma ScanOpenStep<T>(xs: seq<T>, isOpen: T -> bool, isClose: T -> bool, t: nat, i: nat, start: Option<nat>)
    requires ScanState(xs, isOpen, isClose, t, i, start) && i < |xs| && isOpen(xs[i])
    ensures ScanState(xs, isOpen, isClose, t, i + 1, Some(i + 1))
  {
    if t < i {
      LastWhereBeforeStep(xs, isOpen, t, i);
    }
  }

  /** Any other element, with the span not ending, leaves the start where it was. */
  lemma ScanOtherStep<T>(xs: seq<T>, isOpen: T -> bool, isClose: T -> bool, t: nat, i: nat, start: Option<nat>)
    requires ScanState(xs, isOpen, isClose, t, i, start) && i < |xs| && !isOpen(xs[i])
    requires !(start.Some? && isClose(xs[i]))
    ensures ScanState(xs, isOpen, isClose, t, i + 1, start)
  {
    if t < i {
      LastWhereBeforeStep(xs, isOpen, t, i);
    }
  }

  /** Where the scan stops is the span that `Span` describes. */
  lemma ScanFindsSpan<T>(xs: seq<T>, isOpen: T -> bool, isClose: T -> bool, t: nat, s: nat, e: nat)
    requires t == FirstWhere(xs, isOpen, 0) < e <= |xs|
    requires FirstWhere(xs, Ends(isOpen, isClose), t + 1) >= e
    requires e < |xs| ==> Ends(isOpen, isClose)(xs[e])
    requires s == LastWhereBefore(xs, isOpen, t, e) + 1
    ensures Span(xs, isOpen, isClose) == Some((s, e))
  {
  }

  /** Python's `extract_section`: the `for` loop with its mutable `start`/`end` and `break`. */
  method ExtractSection(mdText: string, sectionTitle: string) returns (r: string)
    ensures r == Section(mdText, sectionTitle)
  {
    var lines := Split(mdText, '\n');
    var start: Option<nat> := None;
    var end: Option<nat> := None;
    var i := 0;
    while i < |lines|
      invariant 0 <= i <= |lines| && end.None?
      invariant start.Some? ==> start.value <= i
      invariant ScanFrom(lines, TitleTest(sectionTitle), HeadingTest(), i, start)
             == ScanFrom(lines, TitleTest(sectionTitle), HeadingTest(), 0, None)
    {
      if IsTitleLine(lines[i], sectionTitle) {
        start := Some(i + 1);
        i := i + 1;
        continue;
      }
      if start.Some? && IsHeading(lines[i]) {
        end := Some(i);
        break;
      }
      i := i + 1;
    }
    ScanFromIsSpan(lines, TitleTest(sectionTitle), HeadingTest(), FirstWhere(lines, TitleTest(sectionTitle), 0), 0, None);
    if start.None? {
      return "";
    }
    if end.None? {
      end := Some(|lines|);
    }
    r := Join(lines[start.value..end.value], "\n");
  }

  // ===========================================================================
  // parse_table and split_row

  /** A `|` that `re.split(r'(?<!\\)\|', s)` splits on: not preceded by a backslash. */
  predicate IsSplitPipe(s: string, i: nat)
    requires i < |s|
  {
    s[i] == '|' && (i == 0 || s[i - 1] != '\\')
  }

  /** A `|` at `j`, if there is one, is escaped by the character before it. */
  predicate PipeEscapedAt(q: string, j: int)
    requires 0 <= j < |q|
  {
    q[j] == '|' ==> j > 0 && q[j - 1] == '\\'
  }

  /** Every `|` in `q` is escaped by the character before it. */
  predicate EscapedPipesOnly(q: string) {
    forall j :: 0 <= j < |q| ==> PipeEscapedAt(q, j)
  }

  /** The scan behind `re.split(r'(?<!\\)\|', s)`: the piece in progress starts at `start`. */
  function SplitPipesFrom(s: string, start: nat, i: nat): (parts: seq<string>)
    requires start <= i <= |s|
    requires start == 0 || IsSplitPipe(s, start - 1)
    requires forall k :: start <= k < i ==> !IsSplitPipe(s, k)
    ensures |parts| >= 1
    ensures forall k :: 0 <= k < |parts| ==> EscapedPipesOnly(parts[k])
    ensures Join(parts, "|") == s[start..]
    decreases |s| - i
  {
    if i == |s| then
      PieceEscapedOnly(s, start, i);
      assert s[start..i] == s[start..];
      [s[start..]]
    else if IsSplitPipe(s, i) then
      PieceEscapedOnly(s, start, i);
      var rest := SplitPipesFrom(s, i + 1, i + 1);
      assert ([s[start..i]] + rest)[1..] == rest;
      assert forall k :: 1 <= k < 1 + |rest| ==> ([s[start..i]] + rest)[k] == rest[k - 1];
      assert s[start..] == s[start..i] + "|" + s[i + 1..];
      [s[start..i]] + rest
    else
      SplitPipesFrom(s, start, i + 1)
  }

  lemma PieceEscapedOnly(s: string, start: nat, i: nat)
    requires start <= i <= |s|
    requires start == 0 || IsSplitPipe(s, start - 1)
    requires forall k :: start <= k < i ==> !IsSplitPipe(s, k)
    ensures EscapedPipesOnly(s[start..i])
  {
    var q := s[start..i];
    forall j | 0 <= j < |q| ensures PipeEscapedAt(q, j) {
      if q[j] == '|' {
        assert q[j] == s[start + j];
        assert !IsSplitPipe(s, start + j);
        assert q[j - 1] == s[start + j - 1];
      }
    }
  }

  /** `re.split(r'(?<!\\)\|', s)`. */
  function SplitPipes(s: string): (parts: seq<string>)
    ensures |parts| >= 1
    ensures forall k :: 0 <= k < |parts| ==> EscapedPipesOnly(parts[k])
    ensures Join(parts, "|") == s
  {
    SplitPipesFrom(s, 0, 0)
  }

  /** Stripping keeps a string free of unescaped pipes. */
  lemma StripKeepsEscapedOnly(q: string)
    requires EscapedPipesOnly(q)
    ensures EscapedPipesOnly(Strip(q))
  {
    var t := Strip(q);
    var a := LeadingCount(q, Whitespace);
    StripSlice(q);
    forall j | 0 <= j < |t| ensures PipeEscapedAt(t, j) {
      if t[j] == '|' {
        assert t[j] == q[a + j];
        assert PipeEscapedAt(q, a + j);
        if j > 0 {
          assert t[j - 1] == q[a + j - 1];
        }
      }
    }
  }

  /** `[c.strip() for c in pieces]`. */
  function StripAll(pieces: seq<string>): (cells: seq<string>)
    ensures |cells| == |pieces|
    ensures forall k :: 0 <= k < |pieces| ==> cells[k] == Strip(pieces[k])
  {
    seq(|pieces|, k requires 0 <= k < |pieces| => Strip(pieces[k]))
  }

  /**
   * `split_row`: split the stripped row on unescaped pipes, drop the pieces before
   * the first and after the last pipe, strip each cell.
   */
  function SplitRow(rowText: string): seq<string> {
    var parts := SplitPipes(Strip(rowText));
    StripAll(if |parts| >= 2 then parts[1..|parts| - 1] else [])
  }

  /** No cell of a split row holds an unescaped `|`, and every cell is stripped. */
  lemma SplitRowCells(rowText: string)
    ensures forall k :: 0 <= k < |SplitRow(rowText)| ==> EscapedPipesOnly(SplitRow(rowText)[k])
    ensures forall k :: 0 <= k < |SplitRow(rowText)| ==> SplitRow(rowText)[k] == Strip(SplitRow(rowText)[k])
  {
    var parts := SplitPipes(Strip(rowText));
    var inner := if |parts| >= 2 then parts[1..|parts| - 1] else [];
    var cells := SplitRow(rowText);
    forall k | 0 <= k < |cells| ensures EscapedPipesOnly(cells[k]) && cells[k] == Strip(cells[k]) {
      assert inner[k] == parts[k + 1];
      StrippedCell(inner[k]);
    }
  }

  /** A stripped piece without unescaped pipes is a cell `SplitRowCells` describes. */
  lemma StrippedCell(piece: string)
    requires EscapedPipesOnly(piece)
    ensures EscapedPipesOnly(Strip(piece)) && Strip(piece) == Strip(Strip(piece))
  {
    StripKeepsEscapedOnly(piece);
    StripIdempotent(piece);
  }

  predicate IsTableLine(line: string) {
    "|" <= Strip(line)
  }

  /** `[l for l in lines if l.strip().startswith("|")]`. */
  function TableLinesOf(lines: seq<string>): (r: seq<string>)
    ensures forall k :: 0 <= k < |r| ==> IsTableLine(r[k])
    ensures forall l :: l in r ==> l in lines
    decreases |lines|
  {
    if lines == [] then []
    else (if IsTableLine(lines[0]) then [lines[0]] else []) + TableLinesOf(lines[1..])
  }

  function TableLines(sectionMd: string): seq<string> {
    TableLinesOf(Split(sectionMd, '\n'))
  }

  /** `split_row` applied to each line. */
  function SplitRows(rowLines: seq<string>): (rows: seq<seq<string>>)
    ensures |rows| == |rowLines|
  {
    seq(|rowLines|, k requires 0 <= k < |rowLines| => SplitRow(rowLines[k]))
  }

  /** Every row has exactly `n` cells. */
  predicate AllWidth(rows: seq<seq<string>>, n: nat) {
    forall k :: 0 <= k < |rows| ==> |rows[k]| == n
  }

  /** The rows kept by `parse_table`'s loop: those with exactly `n` cells, in order. */
  function WithWidth(rows: seq<seq<string>>, n: nat): (kept: seq<seq<string>>)
    ensures |kept| <= |rows|
    ensures AllWidth(kept, n)
    decreases |rows|
  {
    if rows == [] then []
    else
      var last := rows[|rows| - 1];
      WithWidth(rows[..|rows| - 1], n) + (if |last| == n then [last] else [])
  }

  /** Kept rows stay in source order: the filter distributes over concatenation. */
  lemma {:induction false} WithWidthAppend(a: seq<seq<string>>, b: seq<seq<string>>, n: nat)
    ensures WithWidth(a + b, n) == WithWidth(a, n) + WithWidth(b, n)
    decreases |b|
  {
    if b == [] {
      assert a + b == a;
    } else {
      assert (a + b)[..|a + b| - 1] == a + b[..|b| - 1];
      WithWidthAppend(a, b[..|b| - 1], n);
    }
  }

  /** A row is kept exactly when it is one of the rows and has `n` cells. */
  lemma {:induction false} WithWidthMembers(rows: seq<seq<string>>, n: nat, row: seq<string>)
    ensures row in WithWidth(rows, n) <==> row in rows && |row| == n
    decreases |rows|
  {
    if rows != [] {
      var init := rows[..|rows| - 1];
      assert rows == init + [rows[|rows| - 1]];
      WithWidthMembers(init, n, row);
    }
  }

  /** `parse_table`'s header cells: none when the section has fewer than three table lines. */
  function TableHeader(sectionMd: string): (header: seq<string>)
    ensures |TableLines(sectionMd)| < 3 ==> header == []
  {
    var lines := TableLines(sectionMd);
    if |lines| < 3 then [] else SplitRow(lines[0])
  }

  /**
   * `parse_table`'s rows: the split lines after the separator that have as many
   * cells as the header, so every row has the header's width.
   */
  function TableRows(sectionMd: string): (rows: seq<seq<string>>)
    ensures |TableLines(sectionMd)| < 3 ==> rows == []
    ensures AllWidth(rows, |TableHeader(sectionMd)|)
  {
    var lines := TableLines(sectionMd);
    if |lines| < 3 then [] else WithWidth(SplitRows(lines[2..]), |SplitRow(lines[0])|)
  }

  /** `parse_table`'s `(header, separator)` lines. */
  function TableMeta(sectionMd: string): (meta: (string, string))
    ensures |TableLines(sectionMd)| < 3 ==> meta == ("", "")
    ensures |TableLines(sectionMd)| >= 3 ==> IsTableLine(meta.0) && IsTableLine(meta.1)
  {
    var lines := TableLines(sectionMd);
    if |lines| < 3 then ("", "") else (lines[0], lines[1])
  }

  /** Python's `parse_table`, with the loop that appends matching rows. */
  method ParseTable(sectionMd: string) returns (header: seq<string>, rows: seq<seq<string>>, meta: (string, string))
    ensures header == TableHeader(sectionMd)
    ensures rows == TableRows(sectionMd)
    ensures meta == TableMeta(sectionMd)
  {
    var lines := TableLines(sectionMd);
    if |lines| < 3 {
      return [], [], ("", "");
    }
    header := SplitRow(lines[0]);
    rows := RowsOfWidth(lines[2..], |header|);
    meta := (lines[0], lines[1]);
  }

  /** The loop of `parse_table`: split each line, keep those with `n` cells. */
  method RowsOfWidth(rowLines: seq<string>, n: nat) returns (rows: seq<seq<string>>)
    ensures rows == WithWidth(SplitRows(rowLines), n)
  {
    rows := [];
    var k := 0;
    while k < |rowLines|
      invariant 0 <= k <= |rowLines|
      invariant rows == WithWidth(SplitRows(rowLines[..k]), n)
    {
      var cols := SplitRow(rowLines[k]);
      SplitRowsSnoc(rowLines, k);
      if |cols| == n {
        rows := rows + [cols];
      }
      k := k + 1;
    }
    assert rowLines[..k] == rowLines;
  }

  lemma SplitRowsSnoc(rowLines: seq<string>, k: nat)
    requires k < |rowLines|
    ensures SplitRows(rowLines[..k + 1]) == SplitRows(rowLines[..k]) + [SplitRow(rowLines[k])]
    ensures SplitRows(rowLines[..k + 1])[..k] == SplitRows(rowLines[..k])
  {
    assert rowLines[..k + 1] == rowLines[..k] + [rowLines[k]];
  }

  // ===========================================================================
  // extract_article_url

  /** The length of `http://` or `https://` at `s[i..]`, or 0. */
  function SchemeLen(s: string, i: nat): (n: nat)
    ensures n == 0 || n == 7 || n == 8
    ensures n > 0 ==> i + n <= |s| && s[i..i + n] == (if n == 7 then "http://" else "https://")
  {
    if i <= |s| && "http://" <= s[i..] then
      assert s[i..][..7] == s[i..i + 7];
      7
    else if i <= |s| && "https://" <= s[i..] then
      assert s[i..][..8] == s[i..i + 8];
      8
    else 0
  }

  /** The scheme of a URL group, which carries no `)`. */
  predicate HasScheme(g: string) {
    "http://" <= g || "https://" <= g
  }

  /** A match of `\((https?://[^\)]+)\)` at `i`: group 1 if the regex matches there. */
  function LinkAt(cell: string, i: nat): Option<string> {
    if i < |cell| && cell[i] == '(' then
      var n := SchemeLen(cell, i + 1);
      if n == 0 then None
      else
        var rest := cell[i + 1..];
        match IndexOf(rest, ")")
        case Some(j) => if j > n then Some(rest[..j]) else None
        case None => None
    else None
  }

  /** A group starts at an opening parenthesis, begins with its scheme and holds no `)`. */
  lemma LinkAtShape(cell: string, i: nat)
    ensures LinkAt(cell, i).Some? ==>
      i < |cell| && cell[i] == '(' && HasScheme(LinkAt(cell, i).value) && ')' !in LinkAt(cell, i).value
  {
    if LinkAt(cell, i).Some? {
      var n := SchemeLen(cell, i + 1);
      var rest := cell[i + 1..];
      var j := IndexOf(rest, ")").value;
      var g := rest[..j];
      assert g[..n] == cell[i + 1..i + 1 + n];
      forall m | 0 <= m < |g| ensures g[m] != ')' {
        assert !OccursAt(rest, ")", m);
        assert rest[m..m + 1] == [rest[m]];
      }
    }
  }

  /** The first `Some` of `f` at a position in `[from, end)`, trying positions from the left. */
  function FirstSome<T>(f: nat -> Option<T>, end: nat, from: nat): Option<T>
    decreases end - from
  {
    if from >= end then None
    else if f(from).Some? then f(from)
    else FirstSome(f, end, from + 1)
  }

  /** The search finds nothing iff no position in range has a value, and otherwise the leftmost one. */
  lemma {:induction false} FirstSomeSpec<T>(f: nat -> Option<T>, end: nat, from: nat)
    ensures FirstSome(f, end, from).None? <==> forall i :: from <= i < end ==> f(i).None?
    ensures FirstSome(f, end, from).Some? ==>
      exists i :: from <= i < end && f(i) == FirstSome(f, end, from) &&
        forall j :: from <= j < i ==> f(j).None?
    decreases end - from
  {
    if from < end && f(from).None? {
      FirstSomeSpec(f, end, from + 1);
      if FirstSome(f, end, from).None? {
        forall i | from <= i < end ensures f(i).None? {
          if i > from { assert from + 1 <= i; }
        }
      }
    }
  }

  /** `re.search` tries start positions from the left. */
  function FirstLink(cell: string, from: nat): Option<string> {
    FirstSome(i => LinkAt(cell, i), |cell|, from)
  }

  /** The search finds a group exactly when some position at or after `from` matches, and then the leftmost one. */
  lemma FirstLinkSpec(cell: string, from: nat)
    ensures FirstLink(cell, from).None? <==> forall i :: from <= i ==> LinkAt(cell, i).None?
    ensures FirstLink(cell, from).Some? ==>
      exists i :: from <= i < |cell| && LinkAt(cell, i) == FirstLink(cell, from) &&
        forall j :: from <= j < i ==> LinkAt(cell, j).None?
  {
    var f := i => LinkAt(cell, i);
    FirstSomeSpec(f, |cell|, from);
    assert forall i :: f(i) == LinkAt(cell, i);
    forall i | |cell| <= i ensures LinkAt(cell, i).None? {}
  }

  /** `g.split(sep)[0]`: what precedes the first `sep`. */
  function BeforeFirst(g: string, sep: string): string {
    match IndexOf(g, sep)
    case None => g
    case Some(k) => g[..k]
  }

  /** It is a prefix that holds no `sep`, and all of `g` when `sep` does not occur. */
  lemma BeforeFirstSpec(g: string, sep: string)
    requires sep != []
    ensures BeforeFirst(g, sep) <= g
    ensures !Contains(BeforeFirst(g, sep), sep)
    ensures IndexOf(g, sep).None? ==> BeforeFirst(g, sep) == g
  {
    match IndexOf(g, sep)
    case None =>
    case Some(k) =>
      var r := g[..k];
      forall j ensures !OccursAt(r, sep, j) {
        if OccursAt(r, sep, j) {
          assert g[j..j + |sep|] == r[j..j + |sep|];
          assert OccursAt(g, sep, j);
        }
      }
  }

  lemma BeforeFirstKeepsScheme(g: string)
    requires HasScheme(g)
    ensures HasScheme(BeforeFirst(g, "&hl="))
  {
    match IndexOf(g, "&hl=")
    case None =>
    case Some(k) =>
      assert g[k..k + 4] == "&hl=";
      PrefixBeforeAmpKeepsScheme(g, k);
  }

  /** Cutting a URL at an `&` leaves its scheme whole: no scheme holds an `&`. */
  lemma PrefixBeforeAmpKeepsScheme(g: string, k: nat)
    requires HasScheme(g) && k < |g| && g[k] == '&'
    ensures HasScheme(g[..k])
  {
    if "http://" <= g {
      assert g[..7] == "http://";
      if k < 7 {
        assert false;
      }
      assert g[..k][..7] == g[..7];
    } else {
      assert g[..8] == "https://";
      if k < 8 {
        assert false;
      }
      assert g[..k][..8] == g[..8];
    }
  }

  /** `extract_article_url`. */
  function ExtractArticleUrl(cell: string): Option<string> {
    match FirstLink(cell, 0)
    case None => None
    case Some(g) => Some(BeforeFirst(g, "&hl="))
  }

  /**
   * `None` when no `(http://...)` or `(https://...)` group occurs; otherwise the
   * leftmost group up to its first `&hl=`, which starts with its scheme and holds
   * neither `)` nor `&hl=`.
   */
  lemma ExtractArticleUrlSpec(cell: string)
    ensures ExtractArticleUrl(cell).None? <==> forall i :: LinkAt(cell, i).None?
    ensures ExtractArticleUrl(cell).Some? ==>
      var u := ExtractArticleUrl(cell).value;
      HasScheme(u) && ')' !in u && !Contains(u, "&hl=")
    ensures ExtractArticleUrl(cell).Some? ==>
      exists i :: 0 <= i < |cell| && LinkAt(cell, i).Some? &&
        (forall j :: 0 <= j < i ==> LinkAt(cell, j).None?) &&
        ExtractArticleUrl(cell) == Some(BeforeFirst(LinkAt(cell, i).value, "&hl="))
  {
    FirstLinkSpec(cell, 0);
    match FirstLink(cell, 0)
    case None =>
    case Some(g) =>
      var i :| 0 <= i < |cell| && LinkAt(cell, i) == Some(g) && forall j :: 0 <= j < i ==> LinkAt(cell, j).None?;
      LinkAtShape(cell, i);
      BeforeFirstKeepsScheme(g);
      BeforeFirstSpec(g, "&hl=");
      var u := BeforeFirst(g, "&hl=");
      assert forall c :: c in u ==> c in g;
  }

  // ===========================================================================
  // apply_deduplication

  /** An issue comment; its body may be missing. */
  datatype Comment = Comment(body: Option<string>)

  /** The `stats` dictionary. */
  datatype DedupStats = DedupStats(baseNews: nat, dupNews: nat, newNews: nat)

  /** `comment.get("body") or ""`. */
  function BodyOf(c: Comment): string {
    match c.body
    case None => ""
    case Some(b) => b
  }

  /** `xs.index(x)` guarded by `x in xs`. */
  function IndexOfItem(xs: seq<string>, x: string): (r: Option<nat>)
    ensures r.None? <==> x !in xs
    ensures r.Some? ==> r.value < |xs| && xs[r.value] == x
    ensures r.Some? ==> forall k :: 0 <= k < r.value ==> xs[k] != x
    decreases |xs|
  {
    if xs == [] then None
    else if xs[0] == x then Some(0)
    else match IndexOfItem(xs[1..], x)
      case None => None
      case Some(k) => Some(k + 1)
  }

  /** Every row has a cell at `idx`. */
  predicate Indexable(rows: seq<seq<string>>, idx: nat) {
    forall k :: 0 <= k < |rows| ==> idx < |rows[k]|
  }

  /** The values present in a sequence of options. */
  function Somes(xs: seq<Option<string>>): set<string>
    decreases |xs|
  {
    if xs == [] then {}
    else Somes(xs[..|xs| - 1]) + (match xs[|xs| - 1] case None => {} case Some(u) => {u})
  }

  lemma {:induction false} SomesMembers(xs: seq<Option<string>>, u: string)
    ensures u in Somes(xs) <==> Some(u) in xs
    decreases |xs|
  {
    if xs != [] {
      var init := xs[..|xs| - 1];
      assert xs == init + [xs[|xs| - 1]];
      SomesMembers(init, u);
    }
  }

  /** `extract_article_url` applied to column `idx` of each row. */
  function ColumnUrls(rows: seq<seq<string>>, idx: nat): (urls: seq<Option<string>>)
    requires Indexable(rows, idx)
    ensures |urls| == |rows|
  {
    seq(|rows|, k requires 0 <= k < |rows| => ExtractArticleUrl(rows[k][idx]))
  }

  /** A URL is collected from a table exactly when it is the URL of one of its cells at `idx`. */
  lemma ColumnUrlsMembers(rows: seq<seq<string>>, idx: nat, u: string)
    requires Indexable(rows, idx)
    ensures u in Somes(ColumnUrls(rows, idx)) <==>
      exists k :: 0 <= k < |rows| && ExtractArticleUrl(rows[k][idx]) == Some(u)
  {
    var urls := ColumnUrls(rows, idx);
    SomesMembers(urls, u);
    if Some(u) in urls {
      var k :| 0 <= k < |urls| && urls[k] == Some(u);
      assert ExtractArticleUrl(rows[k][idx]) == Some(u);
    }
    if exists k :: 0 <= k < |rows| && ExtractArticleUrl(rows[k][idx]) == Some(u) {
      var k :| 0 <= k < |rows| && ExtractArticleUrl(rows[k][idx]) == Some(u);
      assert urls[k] == Some(u);
    }
  }

  /** The URLs of the news table of one earlier comment (none without a `제목` column). */
  function CommentUrls(body: string): set<string> {
    var section := Section(body, NewsSectionTitle);
    var header := TableHeader(section);
    match IndexOfItem(header, TitleColumn)
    case None => {}
    case Some(idx) => Somes(ColumnUrls(TableRows(section), idx))
  }

  /** The union of a sequence of sets. */
  function UnionAll(sets: seq<set<string>>): set<string>
    decreases |sets|
  {
    if sets == [] then {} else UnionAll(sets[..|sets| - 1]) + sets[|sets| - 1]
  }

  lemma {:induction false} UnionAllMembers(sets: seq<set<string>>, u: string)
    ensures u in UnionAll(sets) <==> exists i :: 0 <= i < |sets| && u in sets[i]
    decreases |sets|
  {
    if sets != [] {
      var init := sets[..|sets| - 1];
      UnionAllMembers(init, u);
      assert forall i :: 0 <= i < |init| ==> init[i] == sets[i];
    }
  }

  function CommentUrlSets(comments: seq<Comment>): (sets: seq<set<string>>)
    ensures |sets| == |comments|
  {
    seq(|comments|, i requires 0 <= i < |comments| => CommentUrls(BodyOf(comments[i])))
  }

  /** `base_article_set` after the first loop. */
  function Baseline(comments: seq<Comment>): set<string> {
    UnionAll(CommentUrlSets(comments))
  }

  /** The baseline is the union over every earlier comment, not only the last one. */
  lemma BaselineMembers(comments: seq<Comment>, u: string)
    ensures u in Baseline(comments) <==> exists i :: 0 <= i < |comments| && u in CommentUrlSets(comments)[i]
    ensures forall i :: 0 <= i < |comments| ==> CommentUrlSets(comments)[i] == CommentUrls(BodyOf(comments[i]))
  {
    UnionAllMembers(CommentUrlSets(comments), u);
  }

  /** A current row survives: it has no URL, or one the baseline lacks. */
  predicate IsNewRow(row: seq<string>, idx: nat, base: set<string>)
    requires idx < |row|
  {
    match ExtractArticleUrl(row[idx])
    case None => true
    case Some(u) => u !in base
  }

  /** `non_skip_rows`: the current rows that survive, in their original order. */
  function KeptRows(rows: seq<seq<string>>, idx: nat, base: set<string>): (kept: seq<seq<string>>)
    requires Indexable(rows, idx)
    ensures |kept| <= |rows|
    decreases |rows|
  {
    if rows == [] then []
    else
      var last := rows[|rows| - 1];
      KeptRows(rows[..|rows| - 1], idx, base) + (if IsNewRow(last, idx, base) then [last] else [])
  }

  /** Dropping rows keeps every row at the width it had. */
  lemma {:induction false} KeptRowsWidth(rows: seq<seq<string>>, idx: nat, base: set<string>, n: nat)
    requires Indexable(rows, idx) && AllWidth(rows, n)
    ensures AllWidth(KeptRows(rows, idx, base), n)
    decreases |rows|
  {
    if rows != [] {
      KeptRowsWidth(rows[..|rows| - 1], idx, base, n);
    }
  }

  /** A row is kept exactly when it is one of the rows and it is new. */
  lemma {:induction false} KeptRowsMembers(rows: seq<seq<string>>, idx: nat, base: set<string>, row: seq<string>)
    requires Indexable(rows, idx)
    ensures row in KeptRows(rows, idx, base) <==> row in rows && IsNewRow(row, idx, base)
    decreases |rows|
  {
    if rows != [] {
      var init := rows[..|rows| - 1];
      assert rows == init + [rows[|rows| - 1]];
      KeptRowsMembers(init, idx, base, row);
    }
  }

  /** The surviving rows keep their relative order. */
  lemma {:induction false} KeptRowsAppend(a: seq<seq<string>>, b: seq<seq<string>>, idx: nat, base: set<string>)
    requires Indexable(a, idx) && Indexable(b, idx)
    ensures KeptRows(a + b, idx, base) == KeptRows(a, idx, base) + KeptRows(b, idx, base)
    decreases |b|
  {
    if b == [] {
      assert a + b == a;
    } else {
      var init, last := b[..|b| - 1], b[|b| - 1];
      assert b == init + [last] && a + b == (a + init) + [last];
      KeptRowsAppend(a, init, idx, base);
      KeptRowsSnoc(a + init, last, idx, base);
      KeptRowsSnoc(init, last, idx, base);
    }
  }

  /** One more row at the end is kept after the others exactly when it is new. */
  lemma KeptRowsSnoc(rows: seq<seq<string>>, last: seq<string>, idx: nat, base: set<string>)
    requires Indexable(rows, idx) && idx < |last|
    ensures KeptRows(rows + [last], idx, base) ==
      KeptRows(rows, idx, base) + (if IsNewRow(last, idx, base) then [last] else [])
  {
    var all := rows + [last];
    assert all[..|all| - 1] == rows && all[|all| - 1] == last;
  }

  /** Row `k` with its `No.` cell set to `k + first`. */
  function Renumbered(rows: seq<seq<string>>, noIdx: Option<nat>, first: nat): (r: seq<seq<string>>)
    requires noIdx.Some? ==> Indexable(rows, noIdx.value)
    ensures |r| == |rows|
  {
    seq(|rows|, k requires 0 <= k < |rows| =>
      match noIdx
      case None => rows[k]
      case Some(j) => rows[k][j := NatToString(first + k)])
  }

  /** Renumbering rewrites the `No.` cell of row `k` to `k + first` and leaves every other cell alone. */
  lemma RenumberedCells(rows: seq<seq<string>>, noIdx: Option<nat>, first: nat, k: nat, c: nat)
    requires noIdx.Some? ==> Indexable(rows, noIdx.value)
    requires k < |rows| && c < |rows[k]|
    ensures |Renumbered(rows, noIdx, first)[k]| == |rows[k]|
    ensures Renumbered(rows, noIdx, first)[k][c] == if noIdx == Some(c) then NatToString(first + k) else rows[k][c]
  {
  }

  /** `"| " + " | ".join(r) + " |"`. */
  function RowLine(row: seq<string>): string {
    "| " + Join(row, " | ") + " |"
  }

  function RowLines(rows: seq<seq<string>>): (lines: seq<string>)
    ensures |lines| == |rows|
  {
    seq(|rows|, k requires 0 <= k < |rows| => RowLine(rows[k]))
  }

  /** `new_news_section`: the placeholder when nothing is new, else the rebuilt table. */
  function NewSectionText(meta: (string, string), kept: seq<seq<string>>, noIdx: Option<nat>): string
    requires noIdx.Some? ==> Indexable(kept, noIdx.value)
  {
    if kept == [] then ZeroNewSection
    else Join([meta.0, meta.1] + RowLines(Renumbered(kept, noIdx, 1)), "\n")
  }

  /** `new_label`: highlighted when something is new. */
  function NewLabel(n: nat): string {
    var text := NatToString(n) + " (New)";
    if n > 0 then "🔴 **" + text + "**" else text
  }

  /** `summary_header`. */
  function SummaryHeader(st: DedupStats): string {
    "### 중복 제거 요약:\n"
    + "🔁 Dedup Summary\n"
    + "└ News " + NatToString(st.baseNews) + " (Baseline): "
    + NatToString(st.dupNews) + " (Dup), "
    + NewLabel(st.newNews) + "\n\n"
  }

  /** The URLs of one comment's news table: the inner loop of the baseline scan. */
  method CommentTableUrls(body: string) returns (urls: set<string>)
    ensures urls == CommentUrls(body)
  {
    var newsSectionBase := ExtractSection(body, NewsSectionTitle);
    var hNews, rNews, _ := ParseTable(newsSectionBase);
    urls := {};
    var titleAt := IndexOfItem(hNews, TitleColumn);
    if titleAt.Some? {
      urls := ColumnUrlSet(rNews, titleAt.value);
    }
  }

  /** The URLs found in column `idx` of the rows. */
  method ColumnUrlSet(rows: seq<seq<string>>, idx: nat) returns (urls: set<string>)
    requires Indexable(rows, idx)
    ensures urls == Somes(ColumnUrls(rows, idx))
  {
    urls := {};
    var k := 0;
    while k < |rows|
      invariant 0 <= k <= |rows|
      invariant urls == Somes(ColumnUrls(rows, idx)[..k])
    {
      var url := ExtractArticleUrl(rows[k][idx]);
      assert ColumnUrls(rows, idx)[..k + 1][..k] == ColumnUrls(rows, idx)[..k];
      if url.Some? {
        urls := urls + {url.value};
      }
      k := k + 1;
    }
    assert ColumnUrls(rows, idx)[..k] == ColumnUrls(rows, idx);
  }

  /** The first loop of `apply_deduplication`: the URLs of every earlier comment. */
  method CollectBaseline(comments: seq<Comment>) returns (base: set<string>)
    ensures base == Baseline(comments)
  {
    base := {};
    var i := 0;
    while i < |comments|
      invariant 0 <= i <= |comments|
      invariant base == Baseline(comments[..i])
    {
      var urls := CommentTableUrls(BodyOf(comments[i]));
      BaselineSnoc(comments, i);
      base := base + urls;
      i := i + 1;
    }
    assert comments[..i] == comments;
  }

  /** One more comment adds the URLs of its table. */
  lemma BaselineSnoc(comments: seq<Comment>, i: nat)
    requires i < |comments|
    ensures Baseline(comments[..i + 1]) == Baseline(comments[..i]) + CommentUrls(BodyOf(comments[i]))
  {
    var sets := CommentUrlSets(comments[..i + 1]);
    assert sets[..i] == CommentUrlSets(comments[..i]);
  }

  /** The second loop: keep the rows whose URL is missing or not in the baseline. */
  method KeepNewRows(rows: seq<seq<string>>, titleIdx: nat, base: set<string>) returns (kept: seq<seq<string>>)
    requires Indexable(rows, titleIdx)
    ensures kept == KeptRows(rows, titleIdx, base)
  {
    kept := [];
    var k := 0;
    while k < |rows|
      invariant 0 <= k <= |rows|
      invariant kept == KeptRows(rows[..k], titleIdx, base)
    {
      var url := ExtractArticleUrl(rows[k][titleIdx]);
      assert rows[..k + 1][..k] == rows[..k];
      if url.Some? && url.value in base {
        // a duplicate: skipped
      } else {
        kept := kept + [rows[k]];
      }
      k := k + 1;
    }
    assert rows[..k] == rows;
  }

  /** The third loop: the header, the separator and the surviving rows renumbered from 1. */
  method RenumberRows(meta: (string, string), kept: seq<seq<string>>, noIdx: Option<nat>) returns (newLines: seq<string>)
    requires noIdx.Some? ==> Indexable(kept, noIdx.value)
    ensures newLines == [meta.0, meta.1] + RowLines(Renumbered(kept, noIdx, 1))
  {
    newLines := [meta.0, meta.1];
    var j := 0;
    while j < |kept|
      invariant 0 <= j <= |kept|
      invariant newLines == [meta.0, meta.1] + RowLines(Renumbered(kept[..j], noIdx, 1))
    {
      var r := kept[j];
      if noIdx.Some? {
        r := r[noIdx.value := NatToString(j + 1)];
      }
      assert Renumbered(kept[..j + 1], noIdx, 1) == Renumbered(kept[..j], noIdx, 1) + [r];
      newLines := newLines + [RowLine(r)];
      j := j + 1;
    }
    assert kept[..j] == kept;
  }

  /**
   * Python's `apply_deduplication`. Without comments the report is returned as it is.
   * Otherwise the summary comes first, the baseline counts every URL of every comment,
   * new and duplicate rows add up to the current rows, and the news section is replaced
   * by the kept rows renumbered from 1, or by the placeholder when none is kept.
   */
  method ApplyDeduplication(md: string, comments: seq<Comment>) returns (out: string, stats: Option<DedupStats>)
    ensures comments == [] ==> out == md && stats == None
    ensures comments != [] ==> stats.Some? && SummaryHeader(stats.value) <= out
    ensures comments != [] ==> stats.value.baseNews == |Baseline(comments)|
    ensures comments != [] ==>
      stats.value.newNews + stats.value.dupNews == |TableRows(Section(md, NewsSectionTitle))|
    ensures comments != [] ==> out == SummaryHeader(stats.value) + DedupedReport(md, Baseline(comments))
    ensures comments != [] ==> stats.value.newNews == NewCount(md, Baseline(comments))
  {
    if comments == [] {
      return md, None;
    }
    var base := CollectBaseline(comments);

    var currentMd := md;
    var newsSection := ExtractSection(currentMd, NewsSectionTitle);
    var nHeaders, nRows, nTableMeta := ParseTable(newsSection);
    var newArticleCount := 0;
    var totalArticleCount := |nRows|;
    var titleAt := IndexOfItem(nHeaders, TitleColumn);
    if nHeaders != [] && titleAt.Some? {
      var noIdx := IndexOfItem(nHeaders, NoColumn);
      var nonSkipRows := KeepNewRows(nRows, titleAt.value, base);
      KeptRowsWidth(nRows, titleAt.value, base, |nHeaders|);
      newArticleCount := |nonSkipRows|;
      var newNewsSection: string;
      if newArticleCount == 0 {
        newNewsSection := ZeroNewSection;
      } else {
        var newLines := RenumberRows(nTableMeta, nonSkipRows, noIdx);
        newNewsSection := Join(newLines, "\n");
      }
      currentMd := ReplaceAll(currentMd, newsSection, newNewsSection);
    }

    var st := DedupStats(|base|, totalArticleCount - newArticleCount, newArticleCount);
    out := SummaryHeader(st) + currentMd;
    stats := Some(st);
  }

  /** How many rows of the current news table are new against `base`. */
  function NewCount(md: string, base: set<string>): (n: nat)
    ensures n <= |TableRows(Section(md, NewsSectionTitle))|
  {
    var section := Section(md, NewsSectionTitle);
    var header := TableHeader(section);
    match IndexOfItem(header, TitleColumn)
    case None => 0
    case Some(t) => |KeptRows(TableRows(section), t, base)|
  }

  /**
   * The report after the news section is rewritten: unchanged without a `제목` column,
   * otherwise every occurrence of the section replaced by its new text.
   */
  function DedupedReport(md: string, base: set<string>): string {
    var section := Section(md, NewsSectionTitle);
    var header := TableHeader(section);
    match IndexOfItem(header, TitleColumn)
    case None => md
    case Some(t) =>
      var kept := KeptRows(TableRows(section), t, base);
      KeptRowsWidth(TableRows(section), t, base, |header|);
      ReplaceAll(md, section, NewSectionText(TableMeta(section), kept, IndexOfItem(header, NoColumn)))
  }

  /**
   * Without a `제목` column nothing counts as new and the report is left as it is;
   * with one and no new row, the placeholder takes the place of the section.
   */
  lemma DedupedReportCases(md: string, base: set<string>)
    ensures var section := Section(md, NewsSectionTitle);
      TitleColumn !in TableHeader(section) ==> DedupedReport(md, base) == md && NewCount(md, base) == 0
    ensures var section := Section(md, NewsSectionTitle);
      TitleColumn in TableHeader(section) && NewCount(md, base) == 0 ==>
        DedupedReport(md, base) == ReplaceAll(md, section, ZeroNewSection)
  {
  }
}
