/**
 * src/extract.py: the lawsuit record, the pure field extractors (known-case
 * enrichment, case-number search, party parsing, the reason heuristic) and
 * `build_lawsuits_from_news`, which gates the fetched articles, fills one record per
 * article and merges records that share a case number and title.
 */
module Extract {
  import opened Wrappers
  import opened Strings
  import opened ComplaintParse

  /** The `Lawsuit` dataclass. */
  datatype Lawsuit = Lawsuit(
    updateOrFiledDate: string,
    caseTitle: string,
    caseNumber: string,
    reason: string,
    plaintiff: string,
    defendant: string,
    country: string,
    court: string,
    history: string,
    articleUrls: seq<string>)

  // ---------------------------------------------------------------------------
  // enrich_from_known

  /**
   * One entry of the known-cases list: `match.any` (absent means `[]`) and `enrich`
   * (absent or empty means `{}`).
   */
  datatype KnownCase = KnownCase(anyTerms: seq<string>, enrich: map<string, string>)

  /** `any_terms and any(term in hay for term in any_terms)`, with the terms lower-cased. */
  predicate EntryMatches(hay: string, e: KnownCase) {
    && e.anyTerms != []
    && exists k :: 0 <= k < |e.anyTerms| && Contains(hay, Lower(e.anyTerms[k]))
  }

  /** The loop of `enrich_from_known` over an already lower-cased haystack. */
  function EnrichFrom(hay: string, known: seq<KnownCase>): (r: map<string, string>)
    decreases |known|
  {
    if known == [] then map[]
    else if EntryMatches(hay, known[0]) then known[0].enrich
    else EnrichFrom(hay, known[1..])
  }

  /** `enrich_from_known(text, title, known)`. */
  function EnrichFromKnown(text: string, title: string, known: seq<KnownCase>): map<string, string> {
    EnrichFrom(Lower(title + "\n" + text), known)
  }

  /** No matching entry gives `{}`. */
  lemma {:induction false} EnrichFromNoMatch(hay: string, known: seq<KnownCase>)
    requires forall i :: 0 <= i < |known| ==> !EntryMatches(hay, known[i])
    ensures EnrichFrom(hay, known) == map[]
    decreases |known|
  {
    if known != [] {
      assert !EntryMatches(hay, known[0]);
      forall i | 0 <= i < |known| - 1 ensures !EntryMatches(hay, known[1..][i]) {
        assert known[1..][i] == known[i + 1];
      }
      EnrichFromNoMatch(hay, known[1..]);
    }
  }

  /** The first matching entry supplies the overrides. */
  lemma {:induction false} EnrichFromFirstMatch(hay: string, known: seq<KnownCase>, i: nat)
    requires i < |known| && EntryMatches(hay, known[i])
    requires forall j :: 0 <= j < i ==> !EntryMatches(hay, known[j])
    ensures EnrichFrom(hay, known) == known[i].enrich
    decreases i
  {
    if i > 0 {
      assert !EntryMatches(hay, known[0]);
      assert known[1..][i - 1] == known[i];
      forall j | 0 <= j < i - 1 ensures !EntryMatches(hay, known[1..][j]) {
        assert known[1..][j] == known[j + 1];
      }
      EnrichFromFirstMatch(hay, known[1..], i - 1);
    }
  }

  /** An entry without match terms never supplies overrides, whatever the text. */
  lemma EntryWithoutTermsNeverMatches(text: string, title: string, e: KnownCase, rest: seq<KnownCase>)
    requires e.anyTerms == []
    ensures EnrichFromKnown(text, title, [e] + rest) == EnrichFromKnown(text, title, rest)
  {
    assert ([e] + rest)[1..] == rest;
  }

  // ---------------------------------------------------------------------------
  // extract_case_number

  /**
   * The three patterns, tried in this order: `\b\d:\d{2}-cv-\d{5}\b`,
   * `\b\d{1,2}:\d{2}-cv-\d{5}\b` and `\b\d{4}-cv-\d{4,6}\b`, all case-insensitive.
   */
  datatype CaseShape = OneDigitOffice | TwoDigitOffice | YearNumber

  const CaseShapes: seq<CaseShape> := [OneDigitOffice, TwoDigitOffice, YearNumber]

  predicate WordAtIndex(s: string, i: int) { 0 <= i < |s| && IsWordChar(s[i]) }

  /** `\b` at position `p`: a word character on exactly one side. */
  predicate WordBoundary(s: string, p: int) { WordAtIndex(s, p - 1) != WordAtIndex(s, p) }

  /** `n` digits start at `p`. */
  predicate DigitsAt(s: string, p: nat, n: nat) {
    p + n <= |s| && forall k :: p <= k < p + n ==> IsDigit(s[k])
  }

  /** `-cv-` at `p`, ignoring the case of `c` and `v`. */
  predicate CvAt(s: string, p: nat) {
    p + 4 <= |s| && s[p] == '-' && LowerChar(s[p + 1]) == 'c' && LowerChar(s[p + 2]) == 'v' && s[p + 3] == '-'
  }

  /** `d:dd-cv-ddddd` at `p`, with `d` digits of the office number, then `\b`. */
  predicate OfficeNumberAt(s: string, p: nat, d: nat) {
    && DigitsAt(s, p, d)
    && p + d < |s| && s[p + d] == ':'
    && DigitsAt(s, p + d + 1, 2)
    && CvAt(s, p + d + 3)
    && DigitsAt(s, p + d + 7, 5)
    && WordBoundary(s, p + d + 12)
  }

  /** The length of the digit run that starts at `p`. */
  function DigitRun(s: string, p: nat): (n: nat)
    requires p <= |s|
    ensures p + n <= |s| && DigitsAt(s, p, n)
    ensures p + n < |s| ==> !IsDigit(s[p + n])
    decreases |s| - p
  {
    if p < |s| && IsDigit(s[p]) then 1 + DigitRun(s, p + 1) else 0
  }

  /**
   * How long the match of `shape` starting at `p` is, 0 when there is none. The
   * greedy `\d{1,2}` tries two office digits before one; the greedy `\d{4,6}` can only
   * end where the whole digit run ends, since `\b` never holds between two digits.
   */
  function ShapeLen(shape: CaseShape, s: string, p: nat): (n: nat)
    requires p <= |s|
    ensures p + n <= |s|
  {
    if !WordBoundary(s, p) then 0
    else match shape
      case OneDigitOffice => if OfficeNumberAt(s, p, 1) then 13 else 0
      case TwoDigitOffice =>
        if OfficeNumberAt(s, p, 2) then 14 else if OfficeNumberAt(s, p, 1) then 13 else 0
      case YearNumber =>
        if DigitsAt(s, p, 4) && CvAt(s, p + 4) then
          var run := DigitRun(s, p + 8);
          if 4 <= run <= 6 && WordBoundary(s, p + 8 + run) then 8 + run else 0
        else 0
  }

  /** Every match begins with a digit. */
  lemma ShapeLenStartsWithDigit(shape: CaseShape, s: string, p: nat)
    requires p <= |s| && ShapeLen(shape, s, p) > 0
    ensures p < |s| && IsDigit(s[p])
  {
  }

  /** The match lengths at every start position `0..|s|`. */
  function ShapeLens(shape: CaseShape, s: string): (lens: seq<nat>)
    ensures |lens| == |s| + 1
  {
    seq(|s| + 1, p requires 0 <= p <= |s| => ShapeLen(shape, s, p))
  }

  /** The first index at or after `from` whose entry is positive. */
  function FirstPositive(xs: seq<nat>, from: nat): (r: Option<nat>)
    requires from <= |xs|
    ensures r.Some? ==> from <= r.value < |xs| && xs[r.value] > 0
    ensures r.Some? ==> forall q :: from <= q < r.value ==> xs[q] == 0
    ensures r.None? ==> forall q :: from <= q < |xs| ==> xs[q] == 0
    decreases |xs| - from
  {
    if from == |xs| then None
    else if xs[from] > 0 then Some(from)
    else FirstPositive(xs, from + 1)
  }

  /** `pat.search(text)` for one shape: the leftmost match, as text. */
  function SearchShape(shape: CaseShape, s: string): (r: Option<string>)
    ensures r.Some? ==> r.value != [] && IsDigit(r.value[0])
  {
    var lens := ShapeLens(shape, s);
    match FirstPositive(lens, 0)
    case None => None
    case Some(p) =>
      ShapeLenStartsWithDigit(shape, s, p);
      Some(s[p..p + lens[p]])
  }

  /** What a search returns: the leftmost start with a match, and its text. */
  lemma SearchShapeSpec(shape: CaseShape, s: string)
    ensures SearchShape(shape, s).None? <==> forall p :: 0 <= p <= |s| ==> ShapeLen(shape, s, p) == 0
    ensures SearchShape(shape, s).Some? ==> exists p :: (0 <= p <= |s| && ShapeLen(shape, s, p) > 0
      && SearchShape(shape, s).value == s[p..p + ShapeLen(shape, s, p)]
      && forall q :: 0 <= q < p ==> ShapeLen(shape, s, q) == 0)
  {
    SearchShapeNone(shape, s);
    SearchShapeSome(shape, s);
  }

  /** A search finds nothing exactly when no start matches. */
  lemma SearchShapeNone(shape: CaseShape, s: string)
    ensures SearchShape(shape, s).None? <==> forall p :: 0 <= p <= |s| ==> ShapeLen(shape, s, p) == 0
  {
    var lens := ShapeLens(shape, s);
    match FirstPositive(lens, 0)
    case None =>
      forall p | 0 <= p <= |s| ensures ShapeLen(shape, s, p) == 0 { assert lens[p] == 0; }
    case Some(p) =>
      assert lens[p] == ShapeLen(shape, s, p);
  }

  /** A search that finds something returns the text at the leftmost matching start. */
  lemma SearchShapeSome(shape: CaseShape, s: string)
    ensures SearchShape(shape, s).Some? ==> exists p :: (0 <= p <= |s| && ShapeLen(shape, s, p) > 0
      && SearchShape(shape, s).value == s[p..p + ShapeLen(shape, s, p)]
      && forall q :: 0 <= q < p ==> ShapeLen(shape, s, q) == 0)
  {
    var lens := ShapeLens(shape, s);
    match FirstPositive(lens, 0)
    case None =>
    case Some(p) =>
      assert lens[p] == ShapeLen(shape, s, p);
      forall q | 0 <= q < p ensures ShapeLen(shape, s, q) == 0 { assert lens[q] == 0; }
  }

  /** The patterns of `shapes` in order; the first one with a match decides. */
  function FirstShapeMatch(shapes: seq<CaseShape>, s: string): (r: Option<string>)
    ensures r.Some? ==> r.value != [] && IsDigit(r.value[0])
    decreases |shapes|
  {
    if shapes == [] then None
    else match SearchShape(shapes[0], s)
      case Some(m) => Some(m)
      case None => FirstShapeMatch(shapes[1..], s)
  }

  /** `extract_case_number(text)`. */
  function ExtractCaseNumber(text: string): (r: string)
  {
    match FirstShapeMatch(CaseShapes, text)
    case Some(m) => m
    case None => Unresolved
  }

  lemma {:induction false} FirstShapeMatchSpec(shapes: seq<CaseShape>, s: string)
    ensures FirstShapeMatch(shapes, s).None? <==> forall i :: 0 <= i < |shapes| ==> SearchShape(shapes[i], s).None?
    ensures FirstShapeMatch(shapes, s).Some? ==> exists i :: (0 <= i < |shapes|
      && FirstShapeMatch(shapes, s) == SearchShape(shapes[i], s)
      && forall j :: 0 <= j < i ==> SearchShape(shapes[j], s).None?)
    decreases |shapes|
  {
    if shapes != [] {
      FirstShapeMatchSpec(shapes[1..], s);
      assert forall i :: 1 <= i < |shapes| ==> shapes[1..][i - 1] == shapes[i];
      if SearchShape(shapes[0], s).None? && FirstShapeMatch(shapes, s).Some? {
        var i :| (0 <= i < |shapes[1..]| && FirstShapeMatch(shapes[1..], s) == SearchShape(shapes[1..][i], s)
          && forall j :: 0 <= j < i ==> SearchShape(shapes[1..][j], s).None?);
        assert FirstShapeMatch(shapes, s) == SearchShape(shapes[i + 1], s);
      }
    }
  }

  /**
   * The case number is the sentinel exactly when no pattern matches; otherwise it is
   * the leftmost match of the first pattern that matches at all.
   */
  lemma ExtractCaseNumberSpec(text: string)
    ensures ExtractCaseNumber(text) == Unresolved <==> forall i :: 0 <= i < |CaseShapes| ==> SearchShape(CaseShapes[i], text).None?
    ensures ExtractCaseNumber(text) != Unresolved ==> exists i :: (0 <= i < |CaseShapes|
      && SearchShape(CaseShapes[i], text) == Some(ExtractCaseNumber(text))
      && forall j :: 0 <= j < i ==> SearchShape(CaseShapes[j], text).None?)
  {
    FirstShapeMatchSpec(CaseShapes, text);
    assert !IsDigit(Unresolved[0]);
  }

  /** A docket number such as `3:24-CV-01234`, in either case, is found as it stands. */
  lemma OfficeNumberFound()
    ensures ExtractCaseNumber("3:24-CV-01234.") == "3:24-CV-01234"
  {
    var s := "3:24-CV-01234.";
    assert OfficeNumberAt(s, 0, 1);
    var lens := ShapeLens(OneDigitOffice, s);
    assert lens[0] == 13;
    assert s[0..13] == "3:24-CV-01234";
  }

  // ---------------------------------------------------------------------------
  // extract_parties_simple

  /**
   * `extract_parties_simple(text)`; `loose` stands for the `X v. Y` search, the same
   * pattern the complaint parser uses as its fallback.
   */
  function ExtractPartiesSimple(text: string, loose: GroupSearch): (r: (string, string))
    ensures loose(text).None? ==> r == (Unresolved, Unresolved)
    ensures loose(text).Some? ==> r == (Strip(loose(text).value.0), Strip(loose(text).value.1))
    ensures loose(text).Some? ==>
      && (r.0 == [] || (!IsSpace(r.0[0]) && !IsSpace(r.0[|r.0| - 1])))
      && (r.1 == [] || (!IsSpace(r.1[0]) && !IsSpace(r.1[|r.1| - 1])))
  {
    match loose(text)
    case Some((g1, g2)) => (Strip(g1), Strip(g2))
    case None => (Unresolved, Unresolved)
  }

  /** When the caption pattern finds nothing, the complaint parser falls back to this parse of the caption window. */
  lemma CaptionFallbackIsSimpleParse(text: string, caption: GroupSearch, loose: GroupSearch)
    requires caption(CaptionOf(text)).None?
    ensures ExtractPartiesFromCaption(text, caption, loose) == ExtractPartiesSimple(CaptionOf(text), loose)
  {
  }

  // ---------------------------------------------------------------------------
  // reason_heuristic

  const ReasonPirated: string := "불법 유통본/해적판 등으로 추정되는 데이터 활용 의혹에 따른 저작권 침해."
  const ReasonYoutube: string := "유튜브 콘텐츠를 무단 수집해 AI 학습에 사용하고 기술적 보호조치를 우회했다는 취지(저작권/DMCA 등)."
  const ReasonMusic: string := "저작권 보호 음악/가사 등을 무단으로 학습에 사용했다는 취지(음악 출판사/권리자 저작권 침해)."
  const ReasonDefault: string := "AI 모델 학습을 위해 허가되지 않은(무단/불법) 데이터 사용 의혹(저작권/DMCA/무단 수집 등)."

  predicate PiratedSignal(h: string) { Contains(h, "shadow library") || Contains(h, "pirat") }

  predicate YoutubeSignal(h: string) {
    Contains(h, "youtube") && (Contains(h, "dmca") || Contains(h, "circumvent") || Contains(h, "technical protection"))
  }

  predicate MusicSignal(h: string) { Contains(h, "lyrics") || Contains(h, "music publisher") }

  /** `reason_heuristic(hay)`: the first rule whose keywords occur in the lower-cased text. */
  function ReasonHeuristic(hay: string): (r: string)
    ensures r in {ReasonPirated, ReasonYoutube, ReasonMusic, ReasonDefault}
  {
    var h := Lower(hay);
    if PiratedSignal(h) then ReasonPirated
    else if YoutubeSignal(h) then ReasonYoutube
    else if MusicSignal(h) then ReasonMusic
    else ReasonDefault
  }

  /** Each reason is chosen exactly when its rule fires and no earlier rule does. */
  lemma ReasonPriority(hay: string)
    ensures ReasonHeuristic(hay) == ReasonPirated <==> PiratedSignal(Lower(hay))
    ensures ReasonHeuristic(hay) == ReasonYoutube <==> !PiratedSignal(Lower(hay)) && YoutubeSignal(Lower(hay))
    ensures ReasonHeuristic(hay) == ReasonMusic <==>
      !PiratedSignal(Lower(hay)) && !YoutubeSignal(Lower(hay)) && MusicSignal(Lower(hay))
    ensures ReasonHeuristic(hay) == ReasonDefault <==>
      !PiratedSignal(Lower(hay)) && !YoutubeSignal(Lower(hay)) && !MusicSignal(Lower(hay))
  {
    assert |ReasonPirated| == 41 && |ReasonYoutube| == 59 && |ReasonMusic| == 53 && |ReasonDefault| == 56;
  }

  // ---------------------------------------------------------------------------
  // build_lawsuits_from_news: one record per relevant article

  /** The words of which at least one must occur in the lower-cased title and text. */
  const GateKeywords: seq<string> :=
    ["lawsuit", "sued", "litigation", "copyright", "dmca", "pirat", "unauthoriz", "training data", "dataset"]

  const History: string := "최근 3일 이내 기사/RSS 기반 자동 수집(소장/도켓 확인 전 일부 항목은 미확인 가능)."

  /** An RSS item: its title, its link and the ISO date of `published_at`, if any. */
  datatype NewsItem = NewsItem(title: string, url: string, publishedDate: Option<string>)

  /**
   * What the build reads from outside: `fetch_page_text` as a function of the URL (`""`
   * on failure), the known-cases list, today's ISO date in UTC, and the `X v. Y` search.
   */
  datatype Env = Env(fetch: string -> string, known: seq<KnownCase>, today: string, loose: GroupSearch)

  /** The article passes the gate: its text is non-empty and mentions a gate keyword. */
  predicate Relevant(title: string, text: string) {
    && text != []
    && exists k :: 0 <= k < |GateKeywords| && Contains(Lower(title + " " + text), GateKeywords[k])
  }

  /** `enrich.get(key) or fallback`: an empty override counts as absent. */
  function OverrideOr(enrich: map<string, string>, key: string, fallback: string): (r: string)
    ensures key in enrich && enrich[key] != [] ==> r == enrich[key]
    ensures key !in enrich || enrich[key] == [] ==> r == fallback
  {
    if key in enrich && enrich[key] != [] then enrich[key] else fallback
  }

  /** `enrich.get(key, fallback)`: any present override wins, even an empty one. */
  function GetOr(enrich: map<string, string>, key: string, fallback: string): (r: string)
    ensures key in enrich ==> r == enrich[key]
    ensures key !in enrich ==> r == fallback
  {
    if key in enrich then enrich[key] else fallback
  }

  /** The record built for one article that passed the gate. */
  function RecordOf(item: NewsItem, text: string, env: Env): (r: Lawsuit)
    ensures r.articleUrls == [item.url] && r.history == History
  {
    var enrich := EnrichFromKnown(text, item.title, env.known);
    var caseNumber := OverrideOr(enrich, "case_number", ExtractCaseNumber(text));
    var caseTitle := OverrideOr(enrich, "case_title", item.title);
    var parties := ExtractPartiesSimple(caseTitle, env.loose);
    var date := match item.publishedDate case Some(d) => d case None => env.today;
    Lawsuit(
      updateOrFiledDate := date,
      caseTitle := caseTitle,
      caseNumber := caseNumber,
      reason := GetOr(enrich, "reason", ReasonHeuristic(item.title + " " + text)),
      plaintiff := GetOr(enrich, "plaintiff", parties.0),
      defendant := GetOr(enrich, "defendant", parties.1),
      country := GetOr(enrich, "country", Unresolved),
      court := GetOr(enrich, "court", Unresolved),
      history := History,
      articleUrls := [item.url])
  }

  /**
   * Where each field of a record comes from: an empty override of the case number or
   * title counts as absent, any present override of the other fields wins, the parties
   * are parsed from the case title, and the date falls back to today.
   */
  lemma RecordFields(item: NewsItem, text: string, env: Env)
    ensures var r := RecordOf(item, text, env);
      var enrich := EnrichFromKnown(text, item.title, env.known);
      && r.updateOrFiledDate == (if item.publishedDate.Some? then item.publishedDate.value else env.today)
      && ("case_number" !in enrich || enrich["case_number"] == [] ==> r.caseNumber == ExtractCaseNumber(text))
      && ("case_number" in enrich && enrich["case_number"] != [] ==> r.caseNumber == enrich["case_number"])
      && ("case_title" !in enrich || enrich["case_title"] == [] ==> r.caseTitle == item.title)
      && ("case_title" in enrich && enrich["case_title"] != [] ==> r.caseTitle == enrich["case_title"])
      && ("plaintiff" !in enrich ==> r.plaintiff == ExtractPartiesSimple(r.caseTitle, env.loose).0)
      && ("defendant" !in enrich ==> r.defendant == ExtractPartiesSimple(r.caseTitle, env.loose).1)
      && ("plaintiff" in enrich ==> r.plaintiff == enrich["plaintiff"])
      && ("defendant" in enrich ==> r.defendant == enrich["defendant"])
      && ("country" in enrich ==> r.country == enrich["country"])
      && ("country" !in enrich ==> r.country == Unresolved)
      && ("court" in enrich ==> r.court == enrich["court"])
      && ("court" !in enrich ==> r.court == Unresolved)
      && ("reason" in enrich ==> r.reason == enrich["reason"])
      && ("reason" !in enrich ==> r.reason == ReasonHeuristic(item.title + " " + text))
  {
  }

  /** The elements of `xs` that pass `keep`, each mapped through `f`, in order. */
  function FilterMap<A, B>(xs: seq<A>, keep: A -> bool, f: A -> B): (ys: seq<B>)
    ensures |ys| <= |xs|
    decreases |xs|
  {
    if xs == [] then []
    else
      var rest := FilterMap(xs[..|xs| - 1], keep, f);
      if keep(xs[|xs| - 1]) then rest + [f(xs[|xs| - 1])] else rest
  }

  /** Every output element is the image of a kept input element. */
  lemma {:induction false} FilterMapFrom<A, B>(xs: seq<A>, keep: A -> bool, f: A -> B, k: nat)
    requires k < |FilterMap(xs, keep, f)|
    ensures exists i :: 0 <= i < |xs| && keep(xs[i]) && FilterMap(xs, keep, f)[k] == f(xs[i])
    decreases |xs|
  {
    var init := xs[..|xs| - 1];
    var ys, rest := FilterMap(xs, keep, f), FilterMap(init, keep, f);
    if k < |rest| {
      FilterMapFrom(init, keep, f, k);
      var i :| 0 <= i < |init| && keep(init[i]) && rest[k] == f(init[i]);
      assert init[i] == xs[i] && ys[k] == rest[k];
      FilterMapWitness(xs, keep, f, k, i);
    } else {
      FilterMapWitness(xs, keep, f, k, |xs| - 1);
    }
  }

  lemma FilterMapWitness<A, B>(xs: seq<A>, keep: A -> bool, f: A -> B, k: nat, i: nat)
    requires k < |FilterMap(xs, keep, f)| && i < |xs| && keep(xs[i]) && FilterMap(xs, keep, f)[k] == f(xs[i])
    ensures exists i :: 0 <= i < |xs| && keep(xs[i]) && FilterMap(xs, keep, f)[k] == f(xs[i])
  {
  }

  /** Nothing kept, nothing output. */
  lemma {:induction false} FilterMapNone<A, B>(xs: seq<A>, keep: A -> bool, f: A -> B)
    requires forall i :: 0 <= i < |xs| ==> !keep(xs[i])
    ensures FilterMap(xs, keep, f) == []
    decreases |xs|
  {
    if xs != [] {
      var init := xs[..|xs| - 1];
      assert forall i :: 0 <= i < |init| ==> init[i] == xs[i];
      FilterMapNone(init, keep, f);
    }
  }

  /** The gate of the first loop: the article's page text is relevant. */
  function Gate(env: Env): NewsItem -> bool {
    (item: NewsItem) => Relevant(item.title, env.fetch(item.url))
  }

  /** The record the first loop appends for an item that passes the gate. */
  function Make(env: Env): NewsItem -> Lawsuit {
    (item: NewsItem) => RecordOf(item, env.fetch(item.url), env)
  }

  /** The records of the first loop, in the order of the items. */
  function Records(items: seq<NewsItem>, env: Env): seq<Lawsuit> {
    FilterMap(items, Gate(env), Make(env))
  }

  /** Every record is the record of an item whose page text passes the gate (non-empty, with a keyword). */
  lemma RecordsFromRelevantItems(items: seq<NewsItem>, env: Env, k: nat)
    requires k < |Records(items, env)|
    ensures exists i :: (0 <= i < |items|
      && Relevant(items[i].title, env.fetch(items[i].url))
      && Records(items, env)[k] == RecordOf(items[i], env.fetch(items[i].url), env))
  {
    var rs := FilterMap(items, Gate(env), Make(env));
    assert rs == Records(items, env);
    FilterMapFrom(items, Gate(env), Make(env), k);
    var i :| 0 <= i < |items| && Gate(env)(items[i]) && rs[k] == Make(env)(items[i]);
    RecordWitness(items, env, k, i);
  }

  lemma RecordWitness(items: seq<NewsItem>, env: Env, k: nat, i: nat)
    requires k < |Records(items, env)| && i < |items| && Relevant(items[i].title, env.fetch(items[i].url))
    requires Records(items, env)[k] == RecordOf(items[i], env.fetch(items[i].url), env)
    ensures exists i :: (0 <= i < |items|
      && Relevant(items[i].title, env.fetch(items[i].url))
      && Records(items, env)[k] == RecordOf(items[i], env.fetch(items[i].url), env))
  {
  }

  /** Without a relevant item the first loop records nothing. */
  lemma NoRelevantItemsNoRecords(items: seq<NewsItem>, env: Env)
    requires forall i :: 0 <= i < |items| ==> !Relevant(items[i].title, env.fetch(items[i].url))
    ensures Records(items, env) == []
  {
    forall i | 0 <= i < |items| ensures !Gate(env)(items[i]) { }
    FilterMapNone(items, Gate(env), Make(env));
  }

  /** The first loop, filling `results`. */
  method CollectRecords(items: seq<NewsItem>, env: Env) returns (results: seq<Lawsuit>)
    ensures results == Records(items, env)
  {
    results := [];
    for i := 0 to |items|
      invariant results == Records(items[..i], env)
    {
      assert items[..i + 1][..i] == items[..i];
      var item := items[i];
      var text := env.fetch(item.url);
      if text == [] {
        continue;
      }
      if !(exists k :: 0 <= k < |GateKeywords| && Contains(Lower(item.title + " " + text), GateKeywords[k])) {
        continue;
      }
      results := results + [RecordOf(item, text, env)];
    }
    assert items[..|items|] == items;
  }

  // ---------------------------------------------------------------------------
  // sorted(list(set(urls)))

  predicate StrictlySorted(xs: seq<string>) {
    forall i, j :: 0 <= i < j < |xs| ==> Lt(xs[i], xs[j])
  }

  function Elems(xs: seq<string>): set<string> {
    set x | x in xs
  }

  /** `x` put into its place in a strictly sorted list, unless it is there already. */
  function InsertSorted(xs: seq<string>, x: string): (r: seq<string>)
    requires StrictlySorted(xs)
    ensures StrictlySorted(r) && Elems(r) == Elems(xs) + {x}
    decreases |xs|
  {
    if xs == [] then [x]
    else if x == xs[0] then xs
    else if Lt(x, xs[0]) then
      forall j | 0 < j < |xs| ensures Lt(x, xs[j]) { LtTransitive(x, xs[0], xs[j]); }
      [x] + xs
    else
      LtTotal(x, xs[0]);
      var rest := InsertSorted(xs[1..], x);
      assert forall y :: y in rest ==> Lt(xs[0], y) by {
        forall y | y in rest ensures Lt(xs[0], y) {
          if y != x {
            assert y in Elems(rest);
            assert y in Elems(xs[1..]);
            var j :| 0 <= j < |xs[1..]| && xs[1..][j] == y;
            assert xs[j + 1] == y;
          }
        }
      }
      ConsSorted(xs[0], rest);
      assert Elems(xs) == {xs[0]} + Elems(xs[1..]) by { assert xs == [xs[0]] + xs[1..]; }
      [xs[0]] + rest
  }

  lemma ConsSorted(x: string, xs: seq<string>)
    requires StrictlySorted(xs) && forall y :: y in xs ==> Lt(x, y)
    ensures StrictlySorted([x] + xs) && Elems([x] + xs) == {x} + Elems(xs)
  {
    var t := [x] + xs;
    forall i, j | 0 <= i < j < |t| ensures Lt(t[i], t[j]) {
      assert t[j] == xs[j - 1];
      if i > 0 { assert t[i] == xs[i - 1]; }
    }
  }

  /** `sorted(list(set(xs)))`: the elements of `xs`, ascending, each once. */
  function SortedUnique(xs: seq<string>): (r: seq<string>)
    ensures StrictlySorted(r) && Elems(r) == Elems(xs)
    decreases |xs|
  {
    if xs == [] then []
    else
      assert Elems(xs) == Elems(xs[..|xs| - 1]) + {xs[|xs| - 1]} by {
        assert xs == xs[..|xs| - 1] + [xs[|xs| - 1]];
      }
      InsertSorted(SortedUnique(xs[..|xs| - 1]), xs[|xs| - 1])
  }

  /** A strictly sorted list is fixed by its elements, so any correct sort gives the same list. */
  lemma {:induction false} StrictlySortedUnique(a: seq<string>, b: seq<string>)
    requires StrictlySorted(a) && StrictlySorted(b) && Elems(a) == Elems(b)
    ensures a == b
    decreases |a|
  {
    if a != [] { assert a[0] in Elems(a); }
    if b != [] { assert b[0] in Elems(b); }
    if a != [] && b != [] {
      assert a[0] in Elems(b) && b[0] in Elems(a);
      if a[0] != b[0] {
        var i :| 0 <= i < |b| && b[i] == a[0];
        var j :| 0 <= j < |a| && a[j] == b[0];
        assert Lt(b[0], a[0]) by { assert i > 0; }
        assert Lt(a[0], b[0]) by { assert j > 0; }
        LtAsymmetric(a[0], b[0]);
      }
      TailOfSorted(a);
      TailOfSorted(b);
      StrictlySortedUnique(a[1..], b[1..]);
      assert a == [a[0]] + a[1..] && b == [b[0]] + b[1..];
    }
  }

  lemma TailOfSorted(a: seq<string>)
    requires StrictlySorted(a) && a != []
    ensures StrictlySorted(a[1..]) && Elems(a[1..]) == Elems(a) - {a[0]}
  {
    assert a == [a[0]] + a[1..];
    forall i, j | 0 <= i < j < |a[1..]| ensures Lt(a[1..][i], a[1..][j]) {
      assert a[1..][i] == a[i + 1] && a[1..][j] == a[j + 1];
    }
    forall y | y in a[1..] ensures y != a[0] {
      var j :| 0 <= j < |a[1..]| && a[1..][j] == y;
      assert a[j + 1] == y;
      LtIrreflexive(a[0]);
    }
  }

  // ---------------------------------------------------------------------------
  // build_lawsuits_from_news: merging records that share a key

  /** The merge key `(case_number, case_title)`. */
  function KeyOf(r: Lawsuit): (string, string) { (r.caseNumber, r.caseTitle) }

  /** The distinct keys of `rs`, in the order they first occur. */
  function Keys(rs: seq<Lawsuit>): (ks: seq<(string, string)>)
    ensures |ks| <= |rs|
    decreases |rs|
  {
    if rs == [] then []
    else
      var ks := Keys(rs[..|rs| - 1]);
      if KeyOf(rs[|rs| - 1]) in ks then ks else ks + [KeyOf(rs[|rs| - 1])]
  }

  /** Each key of the records occurs exactly once. */
  lemma {:induction false} KeysSpec(rs: seq<Lawsuit>)
    ensures Distinct(Keys(rs))
    ensures forall k :: k in Keys(rs) <==> exists i :: 0 <= i < |rs| && KeyOf(rs[i]) == k
    decreases |rs|
  {
    if rs != [] {
      var init := rs[..|rs| - 1];
      KeysSpec(init);
      assert forall i :: 0 <= i < |init| ==> init[i] == rs[i];
      forall k | k in Keys(rs) ensures exists i :: 0 <= i < |rs| && KeyOf(rs[i]) == k {
        if k !in Keys(init) { assert KeyOf(rs[|rs| - 1]) == k; }
      }
    }
  }

  /** Where the key `k` first occurs. */
  function FirstIndex(rs: seq<Lawsuit>, k: (string, string)): (i: nat)
    requires k in Keys(rs)
    ensures i < |rs| && KeyOf(rs[i]) == k
    ensures forall j :: 0 <= j < i ==> KeyOf(rs[j]) != k
    decreases |rs|
  {
    var init := rs[..|rs| - 1];
    assert forall j :: 0 <= j < |init| ==> init[j] == rs[j];
    if k in Keys(init) then FirstIndex(init, k)
    else
      KeysSpec(init);
      |rs| - 1
  }

  /** The keys come out in the order of their first occurrence. */
  lemma {:induction false} KeysInFirstOccurrenceOrder(rs: seq<Lawsuit>, a: nat, b: nat)
    requires a < b < |Keys(rs)|
    ensures FirstIndex(rs, Keys(rs)[a]) < FirstIndex(rs, Keys(rs)[b])
    decreases |rs|
  {
    var init := rs[..|rs| - 1];
    var ks := Keys(init);
    if b < |ks| {
      assert Keys(rs)[a] == ks[a] && Keys(rs)[b] == ks[b];
      KeysInFirstOccurrenceOrder(init, a, b);
    } else {
      assert ks[a] in ks;
    }
  }

  /** The URLs of all records with key `k`. */
  function UrlSet(rs: seq<Lawsuit>, k: (string, string)): set<string>
    decreases |rs|
  {
    if rs == [] then {}
    else
      var last := rs[|rs| - 1];
      UrlSet(rs[..|rs| - 1], k) + (if KeyOf(last) == k then Elems(last.articleUrls) else {})
  }

  /** A URL is in the union exactly when some record with key `k` lists it. */
  lemma {:induction false} UrlSetSpec(rs: seq<Lawsuit>, k: (string, string))
    ensures forall u :: u in UrlSet(rs, k) <==> exists i :: 0 <= i < |rs| && KeyOf(rs[i]) == k && u in rs[i].articleUrls
    decreases |rs|
  {
    if rs != [] {
      var init := rs[..|rs| - 1];
      UrlSetSpec(init, k);
      assert forall i :: 0 <= i < |init| ==> init[i] == rs[i];
    }
  }

  /** The latest date, as strings compare, among the records with key `k`. */
  function MaxDate(rs: seq<Lawsuit>, k: (string, string)): (d: Option<string>)
    decreases |rs|
  {
    if rs == [] then None
    else
      var last := rs[|rs| - 1];
      var d := MaxDate(rs[..|rs| - 1], k);
      if KeyOf(last) != k then d
      else match d
        case None => Some(last.updateOrFiledDate)
        case Some(x) => Some(if Lt(x, last.updateOrFiledDate) then last.updateOrFiledDate else x)
  }

  /** The date kept for `k` is one of its records' dates, and none of them is later. */
  lemma {:induction false} MaxDateSpec(rs: seq<Lawsuit>, k: (string, string))
    ensures MaxDate(rs, k).None? <==> k !in Keys(rs)
    ensures MaxDate(rs, k).Some? ==> exists i :: (0 <= i < |rs| && KeyOf(rs[i]) == k
      && rs[i].updateOrFiledDate == MaxDate(rs, k).value)
    ensures MaxDate(rs, k).Some? ==> forall i :: 0 <= i < |rs| && KeyOf(rs[i]) == k ==>
      !Lt(MaxDate(rs, k).value, rs[i].updateOrFiledDate)
    decreases |rs|
  {
    if rs != [] {
      var init := rs[..|rs| - 1];
      var last := rs[|rs| - 1];
      MaxDateSpec(init, k);
      assert forall i :: 0 <= i < |init| ==> init[i] == rs[i];
      if KeyOf(last) == k {
        match MaxDate(init, k)
        case None =>
          LtIrreflexive(last.updateOrFiledDate);
          assert forall i :: 0 <= i < |init| ==> KeyOf(init[i]) != k by { KeysSpec(init); }
        case Some(x) =>
          MaxStep(init, k, x, last);
      }
    }
  }

  lemma MaxStep(init: seq<Lawsuit>, k: (string, string), x: string, last: Lawsuit)
    requires forall i :: 0 <= i < |init| && KeyOf(init[i]) == k ==> !Lt(x, init[i].updateOrFiledDate)
    ensures var m := if Lt(x, last.updateOrFiledDate) then last.updateOrFiledDate else x;
      && !Lt(m, last.updateOrFiledDate)
      && forall i :: 0 <= i < |init| && KeyOf(init[i]) == k ==> !Lt(m, init[i].updateOrFiledDate)
  {
    var y := last.updateOrFiledDate;
    LtIrreflexive(y);
    if Lt(x, y) {
      forall i | 0 <= i < |init| && KeyOf(init[i]) == k ensures !Lt(y, init[i].updateOrFiledDate) {
        if Lt(y, init[i].updateOrFiledDate) { LtTransitive(x, y, init[i].updateOrFiledDate); }
      }
    }
  }

  /**
   * `m` is what the merge keeps for key `k`: the first record with that key, except that
   * its URLs are the sorted, duplicate-free union of all their URLs and its date the
   * latest of their dates.
   */
  predicate Summarizes(rs: seq<Lawsuit>, k: (string, string), m: Lawsuit)
    requires k in Keys(rs)
  {
    var first := rs[FirstIndex(rs, k)];
    && m.(articleUrls := first.articleUrls, updateOrFiledDate := first.updateOrFiledDate) == first
    && StrictlySorted(m.articleUrls)
    && Elems(m.articleUrls) == UrlSet(rs, k)
    && MaxDate(rs, k) == Some(m.updateOrFiledDate)
  }

  /** `out` is the merge of `rs`: one record per distinct key, in first-occurrence order. */
  predicate IsMergeOf(rs: seq<Lawsuit>, out: seq<Lawsuit>) {
    && |out| == |Keys(rs)|
    && forall i :: 0 <= i < |out| ==> KeyOf(out[i]) == Keys(rs)[i] && Summarizes(rs, Keys(rs)[i], out[i])
  }

  /** The state of the merge loop after the records `rs`: the key order and the dict. */
  predicate MergedState(rs: seq<Lawsuit>, keys: seq<(string, string)>, merged: map<(string, string), Lawsuit>) {
    && keys == Keys(rs)
    && (forall k :: k in keys ==> k in merged)
    && (forall k :: k in merged ==> k in keys)
    && AllSummarized(rs, merged)
  }

  predicate AllSummarized(rs: seq<Lawsuit>, merged: map<(string, string), Lawsuit>) {
    forall k :: k in merged ==> k in Keys(rs) && Summarizes(rs, k, merged[k])
  }

  /** Lines 130-132: the update of the kept record when another record has its key. */
  function MergeInto(m: Lawsuit, r: Lawsuit): Lawsuit {
    var m1 := m.(articleUrls := SortedUnique(m.articleUrls + r.articleUrls));
    if Lt(m1.updateOrFiledDate, r.updateOrFiledDate) then m1.(updateOrFiledDate := r.updateOrFiledDate) else m1
  }

  /** Adding a record with another key changes nothing about key `k`. */
  lemma SummarizesOther(rs: seq<Lawsuit>, r: Lawsuit, k: (string, string), m: Lawsuit)
    requires k in Keys(rs) && KeyOf(r) != k
    ensures k in Keys(rs + [r])
    ensures Summarizes(rs + [r], k, m) <==> Summarizes(rs, k, m)
  {
    var rs1 := rs + [r];
    assert rs1[..|rs1| - 1] == rs;
    assert FirstIndex(rs1, k) == FirstIndex(rs, k);
    assert rs1[FirstIndex(rs1, k)] == rs[FirstIndex(rs, k)];
    assert UrlSet(rs1, k) == UrlSet(rs, k);
    assert MaxDate(rs1, k) == MaxDate(rs, k);
  }

  /** The first record with a new key starts its own entry. */
  lemma MergeNewKey(rs: seq<Lawsuit>, keys: seq<(string, string)>, merged: map<(string, string), Lawsuit>, r: Lawsuit)
    requires MergedState(rs, keys, merged) && KeyOf(r) !in merged && StrictlySorted(r.articleUrls)
    ensures MergedState(rs + [r], keys + [KeyOf(r)], merged[KeyOf(r) := r])
  {
    var rs1 := rs + [r];
    var k0 := KeyOf(r);
    assert rs1[..|rs1| - 1] == rs;
    assert Keys(rs1) == keys + [k0];
    var merged1 := merged[k0 := r];
    forall k | k in merged1 ensures k in Keys(rs1) && Summarizes(rs1, k, merged1[k]) {
      if k == k0 {
        assert FirstIndex(rs1, k0) == |rs|;
        KeysSpec(rs);
        UrlSetSpec(rs, k0);
        MaxDateSpec(rs, k0);
        assert UrlSet(rs, k0) == {};
        assert UrlSet(rs1, k0) == Elems(r.articleUrls);
        assert MaxDate(rs1, k0) == Some(r.updateOrFiledDate);
      } else {
        SummarizesOther(rs, r, k, merged[k]);
      }
    }
  }

  /** A record with a known key is folded into the kept entry. */
  lemma MergeKnownKey(rs: seq<Lawsuit>, keys: seq<(string, string)>, merged: map<(string, string), Lawsuit>, r: Lawsuit)
    requires MergedState(rs, keys, merged) && KeyOf(r) in merged
    ensures MergedState(rs + [r], keys, merged[KeyOf(r) := MergeInto(merged[KeyOf(r)], r)])
  {
    var rs1 := rs + [r];
    var k0 := KeyOf(r);
    assert rs1[..|rs1| - 1] == rs;
    assert Keys(rs1) == keys;
    var m := merged[k0];
    var m1 := MergeInto(m, r);
    var merged1 := merged[k0 := m1];
    forall k | k in merged1 ensures k in Keys(rs1) && Summarizes(rs1, k, merged1[k]) {
      if k == k0 {
        MergeKnownKeyEntry(rs, r, m);
      } else {
        SummarizesOther(rs, r, k, merged[k]);
      }
    }
    assert AllSummarized(rs1, merged1);
    assert forall k :: k in merged1 ==> k in keys;
    assert forall k :: k in keys ==> k in merged1;
  }

  lemma MergeKnownKeyEntry(rs: seq<Lawsuit>, r: Lawsuit, m: Lawsuit)
    requires KeyOf(r) in Keys(rs) && Summarizes(rs, KeyOf(r), m)
    ensures KeyOf(r) in Keys(rs + [r]) && Summarizes(rs + [r], KeyOf(r), MergeInto(m, r))
  {
    var rs1 := rs + [r];
    var k0 := KeyOf(r);
    assert rs1[..|rs1| - 1] == rs;
    assert FirstIndex(rs1, k0) == FirstIndex(rs, k0);
    assert rs1[FirstIndex(rs1, k0)] == rs[FirstIndex(rs, k0)];
    assert UrlSet(rs1, k0) == UrlSet(rs, k0) + Elems(r.articleUrls);
    assert Elems(m.articleUrls + r.articleUrls) == Elems(m.articleUrls) + Elems(r.articleUrls);
  }

  /** The second loop; `list(merged.values())` lists the entries in insertion order. */
  method MergeLawsuits(results: seq<Lawsuit>) returns (out: seq<Lawsuit>)
    requires forall i :: 0 <= i < |results| ==> StrictlySorted(results[i].articleUrls)
    ensures IsMergeOf(results, out)
  {
    var keys: seq<(string, string)> := [];
    var merged: map<(string, string), Lawsuit> := map[];
    for i := 0 to |results|
      invariant MergedState(results[..i], keys, merged)
    {
      var r := results[i];
      var key := KeyOf(r);
      assert results[..i + 1] == results[..i] + [r];
      if key !in merged {
        MergeNewKey(results[..i], keys, merged, r);
        merged := merged[key := r];
        keys := keys + [key];
      } else {
        MergeKnownKey(results[..i], keys, merged, r);
        var m := merged[key];
        m := m.(articleUrls := SortedUnique(m.articleUrls + r.articleUrls));
        if Lt(m.updateOrFiledDate, r.updateOrFiledDate) {
          m := m.(updateOrFiledDate := r.updateOrFiledDate);
        }
        merged := merged[key := m];
      }
    }
    assert results[..|results|] == results;
    out := seq(|keys|, j requires 0 <= j < |keys| && keys[j] in merged => merged[keys[j]]);
    KeysOfMerge(results, keys, merged, out);
  }

  lemma KeysOfMerge(rs: seq<Lawsuit>, keys: seq<(string, string)>, merged: map<(string, string), Lawsuit>, out: seq<Lawsuit>)
    requires MergedState(rs, keys, merged)
    requires |out| == |keys| && forall j :: 0 <= j < |keys| ==> keys[j] in merged && out[j] == merged[keys[j]]
    ensures IsMergeOf(rs, out)
  {
    forall j | 0 <= j < |out| ensures KeyOf(out[j]) == keys[j] && Summarizes(rs, keys[j], out[j]) {
      var first := rs[FirstIndex(rs, keys[j])];
      assert KeyOf(first) == keys[j];
      assert out[j].caseNumber == first.caseNumber && out[j].caseTitle == first.caseTitle by {
        assert out[j].(articleUrls := first.articleUrls, updateOrFiledDate := first.updateOrFiledDate) == first;
      }
    }
  }

  /**
   * `build_lawsuits_from_news(news_items, known_cases)`: the records of the relevant
   * articles, merged by `(case_number, case_title)`.
   */
  method BuildLawsuitsFromNews(items: seq<NewsItem>, env: Env) returns (out: seq<Lawsuit>)
    ensures IsMergeOf(Records(items, env), out)
  {
    var results := CollectRecords(items, env);
    RecordsHaveOneUrl(items, env);
    out := MergeLawsuits(results);
  }

  /** Each record carries the one URL of its article, so its URL list is trivially sorted. */
  lemma RecordsHaveOneUrl(items: seq<NewsItem>, env: Env)
    ensures forall i :: 0 <= i < |Records(items, env)| ==> StrictlySorted(Records(items, env)[i].articleUrls)
  {
    forall i | 0 <= i < |Records(items, env)| ensures StrictlySorted(Records(items, env)[i].articleUrls) {
      RecordsFromRelevantItems(items, env, i);
      assert |Records(items, env)[i].articleUrls| == 1;
    }
  }
}
