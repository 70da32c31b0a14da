/**
 * `render_markdown` of src/render.py: the report as a list of lines joined by `\n`,
 * a fixed heading, the lawsuit table or its fallback sentence, a divider, the RECAP
 * table of at most 20 documents by filing date, and the article URL list.
 */
module Render {
  import opened Wrappers
  import opened Strings
  import opened ComplaintParse
  import opened Extract

  /**
   * The fields of a CourtListener RECAP document that the renderer reads; the
   * `extracted_*` values and the two links may be `None`.
   */
  datatype CLDocument = CLDocument(
    dateFiled: string,
    caseName: string,
    docketNumber: string,
    court: string,
    docType: string,
    documentUrl: Option<string>,
    pdfUrl: Option<string>,
    extractedAiSnippet: Option<string>,
    extractedCauses: Option<string>,
    extractedPlaintiff: Option<string>,
    extractedDefendant: Option<string>)

  const Heading: string := "## 최근 3일: AI 학습용 무단/불법 데이터 사용 관련 소송/업데이트\n"
  const TableTitle: string := "### 요약 테이블 (뉴스/RSS 기반 정규화)"
  const TableHeader: string := "| 소송/업데이트 일자 | 소송제목 | 소송번호 | 소송이유 | 원고 | 피고 | 국가 | 법원명 | 히스토리 |"
  const TableRule: string := "|---|---|---|---|---|---|---|---|---|"
  const NoTable: string := "정규화된 소송 테이블을 생성하지 못했습니다(뉴스/문서에서 필요한 필드가 부족할 수 있음)."
  const Divider: string := "\n---\n"
  const RecapTitle: string := "### RECAP 문서 기반 (Complaint/Petition 우선, **정밀 추출**)"
  const RecapHeader: string := "| 문서 제출일 | 케이스명 | 도켓번호 | 법원 | 문서유형 | 원고(추출) | 피고(추출) | 청구원인(추출) | AI학습 관련 핵심문장(추출) | 문서 링크 |"
  const RecapRule: string := "|---|---|---|---|---|---|---|---|---|---|"
  const RecapEnd: string := "\n"
  const RecapHead: seq<string> := [RecapTitle, RecapHeader, RecapRule]
  const UrlHeading: string := "## 기사 주소\n"
  const NoUrls: string := "- (기사 주소 출력 실패)"

  /** At most this many RECAP documents are listed. */
  const RecapLimit: nat := 20

  // ---------------------------------------------------------------------------
  // cells

  /** A table row `| c1 | c2 | … | cn |`, as the f-strings write it. */
  function Row(cells: seq<string>): string {
    "| " + Join(cells, " | ") + " |"
  }

  /** How an f-string shows an optional value: `None` prints as `None`. */
  function Show(o: Option<string>): string {
    match o
    case Some(x) => x
    case None => "None"
  }

  /** `(x or fallback)`: `None` and `""` both give the fallback. */
  function OrDefault(o: Option<string>, fallback: string): (r: string)
    ensures o.Some? && o.value != [] ==> r == o.value
    ensures o.None? || o.value == [] ==> r == fallback
  {
    match o
    case Some(x) => if x != [] then x else fallback
    case None => fallback
  }

  /** `.replace("|", "\|")`. */
  function Escape(s: string): string {
    ReplaceAll(s, "|", "\\|")
  }

  /** Reading `\|` back as `|`. */
  function Unescape(e: string): string
    decreases |e|
  {
    if e == [] then []
    else if |e| >= 2 && e[0] == '\\' && e[1] == '|' then "|" + Unescape(e[2..])
    else [e[0]] + Unescape(e[1..])
  }

  /** One step of the escape: a pipe becomes `\|`, any other character stays. */
  lemma EscapeCons(s: string)
    requires s != []
    ensures Escape(s) == (if s[0] == '|' then "\\|" else [s[0]]) + Escape(s[1..])
    ensures Escape(s) != [] && Escape(s)[0] != '|'
  {
    assert "|" <= s <==> s[0] == '|';
    if s[0] == '|' { assert s[|"|"|..] == s[1..]; }
  }

  /** Every pipe of an escaped text has a backslash in front of it. */
  lemma {:induction false} EscapedPipes(s: string)
    ensures forall i :: 0 <= i < |Escape(s)| && Escape(s)[i] == '|' ==> i > 0 && Escape(s)[i - 1] == '\\'
    decreases |s|
  {
    if s != [] {
      EscapeCons(s);
      EscapedPipes(s[1..]);
      var head := if s[0] == '|' then "\\|" else [s[0]];
      var e := Escape(s);
      forall i | 0 <= i < |e| && e[i] == '|' ensures i > 0 && e[i - 1] == '\\' {
        if i >= |head| {
          assert e[i] == Escape(s[1..])[i - |head|];
          if i > |head| {
            assert e[i - 1] == Escape(s[1..])[i - 1 - |head|];
          }
        }
      }
    }
  }

  /** The escape loses nothing: undoing it gives back the text. */
  lemma {:induction false} EscapeRoundTrip(s: string)
    ensures Unescape(Escape(s)) == s
    decreases |s|
  {
    if s != [] {
      EscapeCons(s);
      EscapeRoundTrip(s[1..]);
      var rest := Escape(s[1..]);
      if s[0] == '|' {
        assert Escape(s) == "\\|" + rest;
        assert (Escape(s))[2..] == rest;
      } else {
        assert Escape(s) == [s[0]] + rest;
        assert (Escape(s))[1..] == rest;
        if s[1..] != [] { EscapeCons(s[1..]); }
        assert s == [s[0]] + s[1..];
      }
    } else {
      assert Escape(s) == [];
    }
  }

  /** The cells of one lawsuit row, in table order. */
  function LawsuitCells(s: Lawsuit): (cells: seq<string>)
    ensures |cells| == 9
  {
    [s.updateOrFiledDate, s.caseTitle, s.caseNumber, s.reason, s.plaintiff, s.defendant, s.country, s.court, s.history]
  }

  /** `document_url or pdf_url`: an empty document URL counts as absent. */
  function Link(d: CLDocument): (r: string)
    ensures d.documentUrl.Some? && d.documentUrl.value != [] ==> r == d.documentUrl.value
    ensures (d.documentUrl.None? || d.documentUrl.value == []) && d.pdfUrl.Some? ==> r == d.pdfUrl.value
    ensures (d.documentUrl.None? || d.documentUrl.value == []) && d.pdfUrl.None? ==> r == "None"
  {
    if d.documentUrl.Some? && d.documentUrl.value != [] then d.documentUrl.value else Show(d.pdfUrl)
  }

  /** The cells of one RECAP row, in table order. */
  function RecapCells(d: CLDocument): (cells: seq<string>)
    ensures |cells| == 10
    ensures cells[..5] == [d.dateFiled, d.caseName, d.docketNumber, d.court, d.docType] && cells[9] == Link(d)
  {
    var ai := Escape(OrDefault(d.extractedAiSnippet, ""));
    var causes := Escape(OrDefault(d.extractedCauses, Unresolved));
    var p := Escape(OrDefault(d.extractedPlaintiff, Unresolved));
    var df := Escape(OrDefault(d.extractedDefendant, Unresolved));
    [d.dateFiled, d.caseName, d.docketNumber, d.court, d.docType, p, df, causes, ai, Link(d)]
  }

  /**
   * A missing plaintiff, defendant or cause shows as the sentinel and a missing snippet
   * as nothing; in those four cells every pipe is escaped and the escape can be undone.
   */
  lemma RecapCellsSpec(d: CLDocument, k: nat)
    requires 5 <= k <= 8
    ensures var cells := RecapCells(d);
      var raw := [d.extractedPlaintiff, d.extractedDefendant, d.extractedCauses, d.extractedAiSnippet][k - 5];
      var plain := OrDefault(raw, if k == 8 then "" else Unresolved);
      && (raw.None? || raw.value == [] ==> plain == (if k == 8 then "" else Unresolved))
      && cells[k] == Escape(plain)
      && Unescape(cells[k]) == plain
      && forall i :: 0 <= i < |cells[k]| && cells[k][i] == '|' ==> i > 0 && cells[k][i - 1] == '\\'
  {
    var raw := [d.extractedPlaintiff, d.extractedDefendant, d.extractedCauses, d.extractedAiSnippet][k - 5];
    var plain := OrDefault(raw, if k == 8 then "" else Unresolved);
    EscapeRoundTrip(plain);
    EscapedPipes(plain);
  }

  // ---------------------------------------------------------------------------
  // sorted(cl_docs, key=lambda x: x.date_filed, reverse=True)[:20]

  /** Non-increasing filing dates, as strings compare. */
  predicate DescendingByDate(s: seq<CLDocument>) {
    forall i, j :: 0 <= i < j < |s| ==> !Lt(s[i].dateFiled, s[j].dateFiled)
  }

  /** The documents filed on `day`, in their order in `s`. */
  function FiledOn(s: seq<CLDocument>, day: string): seq<CLDocument>
    decreases |s|
  {
    if s == [] then [] else (if s[0].dateFiled == day then [s[0]] else []) + FiledOn(s[1..], day)
  }

  lemma {:induction false} FiledOnLast(s: seq<CLDocument>, day: string)
    requires s != []
    ensures FiledOn(s, day) == FiledOn(s[..|s| - 1], day) + (if s[|s| - 1].dateFiled == day then [s[|s| - 1]] else [])
    decreases |s|
  {
    if |s| > 1 {
      var tail := s[1..];
      FiledOnLast(tail, day);
      assert tail[..|tail| - 1] == s[..|s| - 1][1..];
      assert tail[|tail| - 1] == s[|s| - 1];
      assert s[..|s| - 1][0] == s[0];
    }
  }

  /** `x` placed after every document filed on its date or later. */
  function InsertByDate(s: seq<CLDocument>, x: CLDocument): (r: seq<CLDocument>)
    ensures multiset(r) == multiset(s) + multiset{x}
    decreases |s|
  {
    if s == [] then [x]
    else if Lt(s[0].dateFiled, x.dateFiled) then [x] + s
    else
      assert s == [s[0]] + s[1..];
      [s[0]] + InsertByDate(s[1..], x)
  }

  lemma {:induction false} InsertByDateDescending(s: seq<CLDocument>, x: CLDocument)
    requires DescendingByDate(s)
    ensures DescendingByDate(InsertByDate(s, x))
    decreases |s|
  {
    if s == [] {
    } else if Lt(s[0].dateFiled, x.dateFiled) {
      NewestInFront(s, x);
      DescendingCons(x, s);
    } else {
      DescendingTail(s);
      InsertByDateDescending(s[1..], x);
      HeadStaysInFront(s, x);
      DescendingCons(s[0], InsertByDate(s[1..], x));
    }
  }

  lemma NewestInFront(s: seq<CLDocument>, x: CLDocument)
    requires DescendingByDate(s) && s != [] && Lt(s[0].dateFiled, x.dateFiled)
    ensures forall j :: 0 <= j < |s| ==> !Lt(x.dateFiled, s[j].dateFiled)
  {
    forall j | 0 <= j < |s| ensures !Lt(x.dateFiled, s[j].dateFiled) {
      if Lt(x.dateFiled, s[j].dateFiled) {
        if j == 0 { LtIrreflexive(s[0].dateFiled); }
        LtTransitive(s[0].dateFiled, x.dateFiled, s[j].dateFiled);
      }
    }
  }

  lemma HeadStaysInFront(s: seq<CLDocument>, x: CLDocument)
    requires DescendingByDate(s) && s != [] && !Lt(s[0].dateFiled, x.dateFiled)
    ensures forall j :: 0 <= j < |InsertByDate(s[1..], x)| ==> !Lt(s[0].dateFiled, InsertByDate(s[1..], x)[j].dateFiled)
  {
    var tail := s[1..];
    var rest := InsertByDate(tail, x);
    forall j | 0 <= j < |rest| ensures !Lt(s[0].dateFiled, rest[j].dateFiled) {
      assert rest[j] in multiset(tail) + multiset{x};
      if rest[j] != x {
        assert rest[j] in tail;
        var k :| 0 <= k < |tail| && tail[k] == rest[j];
        assert s[k + 1] == rest[j];
      }
    }
  }

  lemma DescendingCons(x: CLDocument, s: seq<CLDocument>)
    requires DescendingByDate(s) && forall j :: 0 <= j < |s| ==> !Lt(x.dateFiled, s[j].dateFiled)
    ensures DescendingByDate([x] + s)
  {
    var t := [x] + s;
    forall i, j | 0 <= i < j < |t| ensures !Lt(t[i].dateFiled, t[j].dateFiled) {
      assert t[j] == s[j - 1];
      if i > 0 { assert t[i] == s[i - 1]; }
    }
  }

  lemma {:induction false} InsertByDateStable(s: seq<CLDocument>, x: CLDocument, day: string)
    requires DescendingByDate(s)
    ensures FiledOn(InsertByDate(s, x), day) == FiledOn(s, day) + (if x.dateFiled == day then [x] else [])
    decreases |s|
  {
    if s == [] {
    } else if Lt(s[0].dateFiled, x.dateFiled) {
      InsertInFrontStable(s, x, day);
    } else {
      var tail := s[1..];
      DescendingTail(s);
      InsertByDateStable(tail, x, day);
      var r := [s[0]] + InsertByDate(tail, x);
      assert r[1..] == InsertByDate(tail, x);
      assert FiledOn(r, day) == (if s[0].dateFiled == day then [s[0]] else []) + FiledOn(InsertByDate(tail, x), day);
      assert FiledOn(s, day) == (if s[0].dateFiled == day then [s[0]] else []) + FiledOn(tail, day);
    }
  }

  lemma InsertInFrontStable(s: seq<CLDocument>, x: CLDocument, day: string)
    requires DescendingByDate(s) && s != [] && Lt(s[0].dateFiled, x.dateFiled)
    ensures FiledOn([x] + s, day) == FiledOn(s, day) + (if x.dateFiled == day then [x] else [])
  {
    assert ([x] + s)[1..] == s;
    if x.dateFiled == day {
      NoneFiledOn(s, x.dateFiled);
    }
  }

  lemma DescendingTail(s: seq<CLDocument>)
    requires DescendingByDate(s) && s != []
    ensures DescendingByDate(s[1..])
  {
    var tail := s[1..];
    forall i, j | 0 <= i < j < |tail| ensures !Lt(tail[i].dateFiled, tail[j].dateFiled) {
      assert tail[i] == s[i + 1] && tail[j] == s[j + 1];
    }
  }

  /** In a descending list whose head is filed before `day`, nothing is filed on `day`. */
  lemma {:induction false} NoneFiledOn(s: seq<CLDocument>, day: string)
    requires DescendingByDate(s) && s != [] && Lt(s[0].dateFiled, day)
    ensures FiledOn(s, day) == []
    decreases |s|
  {
    LtIrreflexive(day);
    if |s| > 1 {
      var tail := s[1..];
      assert tail[0] == s[1];
      if !Lt(s[1].dateFiled, day) && s[1].dateFiled != day {
        LtTotal(s[1].dateFiled, day);
        LtTransitive(s[0].dateFiled, day, s[1].dateFiled);
      }
      DescendingTail(s);
      NoneFiledOn(tail, day);
    }
  }

  /** The stable sort by filing date, newest first. */
  function SortByDateDesc(docs: seq<CLDocument>): (r: seq<CLDocument>)
    ensures multiset(r) == multiset(docs)
    decreases |docs|
  {
    if docs == [] then []
    else
      assert docs == docs[..|docs| - 1] + [docs[|docs| - 1]];
      InsertByDate(SortByDateDesc(docs[..|docs| - 1]), docs[|docs| - 1])
  }

  lemma {:induction false} SortByDateDescOrdered(docs: seq<CLDocument>)
    ensures DescendingByDate(SortByDateDesc(docs))
    decreases |docs|
  {
    if docs != [] {
      var init := docs[..|docs| - 1];
      SortByDateDescOrdered(init);
      InsertByDateDescending(SortByDateDesc(init), docs[|docs| - 1]);
    }
  }

  lemma {:induction false} SortByDateDescStable(docs: seq<CLDocument>, day: string)
    ensures FiledOn(SortByDateDesc(docs), day) == FiledOn(docs, day)
    decreases |docs|
  {
    if docs != [] {
      var init := docs[..|docs| - 1];
      var last := docs[|docs| - 1];
      SortByDateDescOrdered(init);
      SortByDateDescStable(init, day);
      InsertByDateStable(SortByDateDesc(init), last, day);
      FiledOnLast(docs, day);
    }
  }

  /**
   * The sort is the one `sorted(..., reverse=True)` performs: newest first, the same
   * documents, and those filed on the same day in input order.
   */
  lemma SortByDateDescSpec(docs: seq<CLDocument>)
    ensures DescendingByDate(SortByDateDesc(docs))
    ensures multiset(SortByDateDesc(docs)) == multiset(docs)
    ensures forall day :: FiledOn(SortByDateDesc(docs), day) == FiledOn(docs, day)
  {
    SortByDateDescOrdered(docs);
    forall day ensures FiledOn(SortByDateDesc(docs), day) == FiledOn(docs, day) {
      SortByDateDescStable(docs, day);
    }
  }

  /** `sorted(...)[:20]`. */
  function RecapDocs(docs: seq<CLDocument>): (r: seq<CLDocument>)
    ensures |r| == if |docs| < RecapLimit then |docs| else RecapLimit
  {
    var sorted := SortByDateDesc(docs);
    assert |sorted| == |multiset(sorted)| == |docs|;
    if |sorted| <= RecapLimit then sorted else sorted[..RecapLimit]
  }

  /** The listed documents are the newest ones, newest first, each from the input. */
  lemma RecapDocsSpec(docs: seq<CLDocument>)
    ensures DescendingByDate(RecapDocs(docs))
    ensures forall i :: 0 <= i < |RecapDocs(docs)| ==> RecapDocs(docs)[i] in docs
    ensures RecapDocs(docs) <= SortByDateDesc(docs)
  {
    SortByDateDescSpec(docs);
    var sorted := SortByDateDesc(docs);
    forall i | 0 <= i < |RecapDocs(docs)| ensures RecapDocs(docs)[i] in docs {
      assert RecapDocs(docs)[i] == sorted[i];
      assert sorted[i] in multiset(sorted);
    }
  }

  // ---------------------------------------------------------------------------
  // the lines of the report

  /** One table row per lawsuit, in input order. */
  function LawsuitRows(ls: seq<Lawsuit>): (rows: seq<string>)
    ensures |rows| == |ls|
    ensures forall i :: 0 <= i < |ls| ==> rows[i] == Row(LawsuitCells(ls[i]))
    decreases |ls|
  {
    if ls == [] then [] else LawsuitRows(ls[..|ls| - 1]) + [Row(LawsuitCells(ls[|ls| - 1]))]
  }

  /** One table row per document, in the given order. */
  function RecapRows(ds: seq<CLDocument>): (rows: seq<string>)
    ensures |rows| == |ds|
    ensures forall i :: 0 <= i < |ds| ==> rows[i] == Row(RecapCells(ds[i]))
    decreases |ds|
  {
    if ds == [] then [] else RecapRows(ds[..|ds| - 1]) + [Row(RecapCells(ds[|ds| - 1]))]
  }

  /** One `- url` bullet per URL. */
  function Bullets(us: seq<string>): (lines: seq<string>)
    ensures |lines| == |us|
    ensures forall i :: 0 <= i < |us| ==> lines[i] == "- " + us[i]
    decreases |us|
  {
    if us == [] then [] else Bullets(us[..|us| - 1]) + ["- " + us[|us| - 1]]
  }

  /** The block of one lawsuit in the URL section: its title line, its bullets, a blank line. */
  function UrlBlock(s: Lawsuit): seq<string> {
    ["### " + s.caseTitle + " (" + s.caseNumber + ")"] + Bullets(s.articleUrls) + [""]
  }

  /** A lawsuit's block: the `### title (number)` line, one bullet per URL in order, a blank line. */
  lemma UrlBlockShape(s: Lawsuit)
    ensures |UrlBlock(s)| == |s.articleUrls| + 2
    ensures UrlBlock(s)[0] == "### " + s.caseTitle + " (" + s.caseNumber + ")"
    ensures UrlBlock(s)[|UrlBlock(s)| - 1] == ""
    ensures forall i :: 0 <= i < |s.articleUrls| ==> UrlBlock(s)[i + 1] == "- " + s.articleUrls[i]
  {
  }

  function UrlBlocks(ls: seq<Lawsuit>): seq<string>
    decreases |ls|
  {
    if ls == [] then [] else UrlBlocks(ls[..|ls| - 1]) + UrlBlock(ls[|ls| - 1])
  }

  /** The lines between the heading and the divider. */
  function LawsuitSection(ls: seq<Lawsuit>): (lines: seq<string>)
    ensures ls == [] ==> lines == [NoTable]
    ensures ls != [] ==> |lines| == 3 + |ls| && lines[..3] == [TableTitle, TableHeader, TableRule]
    ensures ls != [] ==> forall i :: 0 <= i < |ls| ==> lines[3 + i] == Row(LawsuitCells(ls[i]))
  {
    if ls == [] then [NoTable] else [TableTitle, TableHeader, TableRule] + LawsuitRows(ls)
  }

  /** The RECAP table, present only when there are documents. */
  function RecapSection(docs: seq<CLDocument>): seq<string> {
    if docs == [] then [] else RecapHead + RecapRows(RecapDocs(docs)) + [RecapEnd]
  }

  /** With documents, the RECAP table has its title, header and rule, one row per listed document, and a closing blank. */
  lemma RecapSectionShape(docs: seq<CLDocument>)
    ensures docs == [] ==> RecapSection(docs) == []
    ensures docs != [] ==> |RecapSection(docs)| == 4 + |RecapDocs(docs)|
    ensures docs != [] ==> RecapSection(docs)[..3] == RecapHead
    ensures docs != [] ==> RecapSection(docs)[|RecapSection(docs)| - 1] == RecapEnd
    ensures docs != [] ==> forall i :: 0 <= i < |RecapDocs(docs)| ==>
      RecapSection(docs)[3 + i] == Row(RecapCells(RecapDocs(docs)[i]))
  {
  }

  /** The lines after the `## 기사 주소` heading. */
  function UrlSection(ls: seq<Lawsuit>): seq<string> {
    if ls == [] then [NoUrls] else UrlBlocks(ls)
  }

  /** Every line of the report, in order. */
  function ReportLines(ls: seq<Lawsuit>, docs: seq<CLDocument>): seq<string> {
    [Heading] + LawsuitSection(ls) + [Divider] + RecapSection(docs) + [UrlHeading] + UrlSection(ls)
  }

  /** The report always opens with the heading and always has the divider and the URL heading. */
  lemma ReportLayout(ls: seq<Lawsuit>, docs: seq<CLDocument>)
    ensures var lines := ReportLines(ls, docs);
      var d := 1 + |LawsuitSection(ls)|;
      var u := d + 1 + |RecapSection(docs)|;
      && |lines| == u + 1 + |UrlSection(ls)|
      && lines[0] == Heading
      && lines[d] == Divider
      && lines[u] == UrlHeading
  {
    var a := [Heading] + LawsuitSection(ls);
    var b := a + [Divider];
    var c := b + RecapSection(docs);
    var e := c + [UrlHeading];
    var lines := e + UrlSection(ls);
    assert lines == ReportLines(ls, docs);
    assert lines[0] == e[0] == c[0] == b[0] == a[0] == Heading;
    assert lines[|a|] == e[|a|] == c[|a|] == b[|a|] == Divider;
    assert lines[|c|] == e[|c|] == UrlHeading;
  }

  /** The URL section lists each lawsuit's block in turn, or the failure bullet when there are none. */
  lemma {:induction false} UrlBlocksSpec(ls: seq<Lawsuit>, i: nat)
    requires i < |ls|
    ensures UrlBlocks(ls[..i]) + UrlBlock(ls[i]) <= UrlBlocks(ls)
    decreases |ls|
  {
    var init := ls[..|ls| - 1];
    if i == |ls| - 1 {
      assert ls[..i] == init;
    } else {
      assert init[..i] == ls[..i] && init[i] == ls[i];
      UrlBlocksSpec(init, i);
    }
  }

  /** `"\n".join(lines)` starts with the first line. */
  lemma {:induction false} JoinStartsWithFirst(parts: seq<string>, sep: string)
    requires parts != []
    ensures parts[0] <= Join(parts, sep)
  {
    if |parts| > 1 {
      assert Join(parts, sep) == parts[0] + (sep + Join(parts[1..], sep));
    }
  }

  // ---------------------------------------------------------------------------
  // render_markdown

  /** The loop over the lawsuits that appends the table rows. */
  method AppendLawsuitRows(lines: seq<string>, ls: seq<Lawsuit>) returns (out: seq<string>)
    ensures out == lines + LawsuitRows(ls)
  {
    out := lines;
    for i := 0 to |ls|
      invariant out == lines + LawsuitRows(ls[..i])
    {
      assert ls[..i + 1][..i] == ls[..i];
      var s := ls[i];
      out := out + [Row([s.updateOrFiledDate, s.caseTitle, s.caseNumber, s.reason, s.plaintiff,
                         s.defendant, s.country, s.court, s.history])];
    }
    assert ls[..|ls|] == ls;
  }

  /** The body of the RECAP loop: one document's cells, with the fallbacks and the escapes. */
  method RecapRow(d: CLDocument) returns (row: string)
    ensures row == Row(RecapCells(d))
  {
    var link := if d.documentUrl.Some? && d.documentUrl.value != [] then d.documentUrl.value else Show(d.pdfUrl);
    var ai := Escape(OrDefault(d.extractedAiSnippet, ""));
    var causes := Escape(OrDefault(d.extractedCauses, Unresolved));
    var p := Escape(OrDefault(d.extractedPlaintiff, Unresolved));
    var df := Escape(OrDefault(d.extractedDefendant, Unresolved));
    row := Row([d.dateFiled, d.caseName, d.docketNumber, d.court, d.docType, p, df, causes, ai, link]);
  }

  /** The loop over the sorted documents that appends the RECAP rows. */
  method AppendRecapRows(lines: seq<string>, ds: seq<CLDocument>) returns (out: seq<string>)
    ensures out == lines + RecapRows(ds)
  {
    out := lines;
    for i := 0 to |ds|
      invariant out == lines + RecapRows(ds[..i])
    {
      assert ds[..i + 1][..i] == ds[..i];
      var row := RecapRow(ds[i]);
      out := out + [row];
    }
    assert ds[..|ds|] == ds;
  }

  /** The inner loop over one lawsuit's URLs. */
  method AppendBullets(lines: seq<string>, us: seq<string>) returns (out: seq<string>)
    ensures out == lines + Bullets(us)
  {
    out := lines;
    for j := 0 to |us|
      invariant out == lines + Bullets(us[..j])
    {
      assert us[..j + 1][..j] == us[..j];
      out := out + ["- " + us[j]];
    }
    assert us[..|us|] == us;
  }

  /** The body of the outer URL loop: one lawsuit's title line, bullets and blank line. */
  method AppendUrlBlock(lines: seq<string>, s: Lawsuit) returns (out: seq<string>)
    ensures out == lines + UrlBlock(s)
  {
    out := lines + ["### " + s.caseTitle + " (" + s.caseNumber + ")"];
    out := AppendBullets(out, s.articleUrls);
    out := out + [""];
  }

  /** The outer loop of the URL section. */
  method AppendUrlBlocks(lines: seq<string>, ls: seq<Lawsuit>) returns (out: seq<string>)
    ensures out == lines + UrlBlocks(ls)
  {
    out := lines;
    for i := 0 to |ls|
      invariant out == lines + UrlBlocks(ls[..i])
    {
      assert ls[..i + 1][..i] == ls[..i] && ls[..i + 1][i] == ls[i];
      out := AppendUrlBlock(out, ls[i]);
    }
    assert ls[..|ls|] == ls;
  }

  /** Lines 10-19: the lawsuit table, or the sentence saying there is none. */
  method AppendLawsuitSection(lines: seq<string>, ls: seq<Lawsuit>) returns (out: seq<string>)
    ensures out == lines + LawsuitSection(ls)
  {
    if ls != [] {
      out := lines + [TableTitle, TableHeader, TableRule];
      out := AppendLawsuitRows(out, ls);
    } else {
      out := lines + [NoTable];
    }
  }

  /** Lines 23-36: the RECAP table, only when there are documents. */
  method AppendRecapSection(lines: seq<string>, docs: seq<CLDocument>) returns (out: seq<string>)
    ensures out == lines + RecapSection(docs)
  {
    out := lines;
    if docs != [] {
      var shown := RecapDocs(docs);
      var rows := AppendRecapRows([], shown);
      assert rows == RecapRows(shown);
      out := lines + (RecapHead + rows + [RecapEnd]);
    } else {
      assert RecapSection(docs) == [];
    }
  }

  /** Lines 39-46: the URL blocks, or the failure bullet. */
  method AppendUrlSection(lines: seq<string>, ls: seq<Lawsuit>) returns (out: seq<string>)
    ensures out == lines + UrlSection(ls)
  {
    if ls != [] {
      out := AppendUrlBlocks(lines, ls);
    } else {
      out := lines + [NoUrls];
    }
  }

  /** `render_markdown(lawsuits, cl_docs)`. */
  method RenderMarkdown(lawsuits: seq<Lawsuit>, docs: seq<CLDocument>) returns (md: string)
    ensures md == Join(ReportLines(lawsuits, docs), "\n")
    ensures Heading <= md
  {
    var lines := [Heading];
    lines := AppendLawsuitSection(lines, lawsuits);
    lines := lines + [Divider];
    lines := AppendRecapSection(lines, docs);
    lines := lines + [UrlHeading];
    lines := AppendUrlSection(lines, lawsuits);
    JoinStartsWithFirst(lines, "\n");
    md := Join(lines, "\n");
  }
}
